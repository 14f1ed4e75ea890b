/** Migration operations and the part of a PostgreSQL catalog that they act on. */
module Database {
  import opened Results
  import opened SchemaSnapshot

  /** The statements that the differ emits, with their payload instead of SQL text. */
  datatype Operation =
    | CreateExtension(ext: string)
    | DropExtension(ext: string)
    | CreateTable(table: string, columns: seq<Column>, primaryKey: seq<string>)
    | DropTable(table: string)
    | AddColumn(table: string, def: Column)
    | DropColumn(table: string, column: string)
    | AlterType(table: string, column: string, typ: string)
    | AlterNullable(table: string, column: string, nullable: bool)
    | SetDefault(table: string, column: string, expr: string)
    | DropDefault(table: string, column: string)
    | AddCheck(table: string, column: string, values: seq<string>)
    | DropCheck(table: string, column: string)
    | AddIndex(table: string, idx: Index)
    | DropIndex(index: string)
    | AddForeignKey(table: string, fk: ForeignKey)
    | DropForeignKey(table: string, constraint: string)
    | CreateHypertable(table: string, column: string)
    | DropHypertable(table: string)

  datatype DbColumn = DbColumn(
    typ: string, nullable: bool, default_: Option<string>, unique: bool, enumValues: seq<string>)

  datatype DbTable = DbTable(
    columns: map<string, DbColumn>, primaryKey: seq<string>, indexes: map<string, Index>, hypertable: string)

  type FkKey = (string, string)

  datatype Db = Db(extensions: set<string>, tables: map<string, DbTable>, foreignKeys: map<FkKey, ForeignKey>)

  /** The column that a rendered column definition creates. */
  function Rendered(col: Column): DbColumn {
    DbColumn(col.typ, col.nullable, ColumnDefault(col), col.unique, col.enumValues)
  }

  function RenderedAll(cols: map<string, Column>): map<string, DbColumn> {
    map c | c in cols :: Rendered(cols[c])
  }

  // Dropping a column takes the indexes, the primary key and the foreign keys on it along.

  predicate Touches(columns: seq<string>, lost: set<string>) {
    exists c | c in columns :: c in lost
  }

  function PruneIndexes(indexes: map<string, Index>, lost: set<string>): map<string, Index> {
    map i | i in indexes && !Touches(indexes[i].columns, lost) :: indexes[i]
  }

  function PrunePrimaryKey(key: seq<string>, lost: set<string>): seq<string> {
    if Touches(key, lost) then [] else key
  }

  predicate OnColumn(k: FkKey, fk: ForeignKey, t: string, lost: set<string>) {
    (k.0 == t && fk.column in lost) || (fk.targetTable == t && fk.targetColumn in lost)
  }

  function PruneForeignKeys(fks: map<FkKey, ForeignKey>, t: string, lost: set<string>): map<FkKey, ForeignKey> {
    map k | k in fks && !OnColumn(k, fks[k], t, lost) :: fks[k]
  }

  function WithTable(db: Db, t: string, tbl: DbTable): Db {
    db.(tables := db.tables[t := tbl])
  }

  function WithColumn(db: Db, t: string, c: string, col: DbColumn): Db
    requires t in db.tables
  {
    WithTable(db, t, db.tables[t].(columns := db.tables[t].columns[c := col]))
  }

  lemma WithTableTwice(db: Db, t: string, a: DbTable, b: DbTable)
    ensures WithTable(WithTable(db, t, a), t, b) == WithTable(db, t, b)
  {
    assert db.tables[t := a][t := b] == db.tables[t := b];
  }

  lemma WithTableSame(db: Db, t: string)
    requires t in db.tables
    ensures WithTable(db, t, db.tables[t]) == db
  {
    assert db.tables[t := db.tables[t]] == db.tables;
  }

  lemma WithColumnTwice(db: Db, t: string, c: string, x: DbColumn, y: DbColumn)
    requires t in db.tables
    ensures WithColumn(WithColumn(db, t, c, x), t, c, y) == WithColumn(db, t, c, y)
  {
    var cols := db.tables[t].columns;
    assert cols[c := x][c := y] == cols[c := y];
    WithTableTwice(db, t, db.tables[t].(columns := cols[c := x]), db.tables[t].(columns := cols[c := y]));
  }

  lemma WithColumnSame(db: Db, t: string, c: string)
    requires t in db.tables && c in db.tables[t].columns
    ensures WithColumn(db, t, c, db.tables[t].columns[c]) == db
  {
    var cols := db.tables[t].columns;
    assert cols[c := cols[c]] == cols;
    WithTableSame(db, t);
  }

  function WithColumns(db: Db, t: string, columns: map<string, DbColumn>): Db
    requires t in db.tables
  {
    WithTable(db, t, db.tables[t].(columns := columns))
  }

  function WithIndexes(db: Db, t: string, indexes: map<string, Index>): Db
    requires t in db.tables
  {
    WithTable(db, t, db.tables[t].(indexes := indexes))
  }

  predicate HasTable(db: Db, t: string) { t in db.tables }

  predicate HasColumn(db: Db, t: string, c: string) { t in db.tables && c in db.tables[t].columns }

  predicate HasIndex(db: Db, i: string) { exists t | t in db.tables :: i in db.tables[t].indexes }

  /** Every object the statement needs is there, and every object it creates is not.
      Dropping a foreign key is IF EXISTS: an earlier drop may have taken it along. */
  predicate Enabled(db: Db, op: Operation) {
    match op
    case CreateExtension(e) => e !in db.extensions
    case DropExtension(e) => e in db.extensions
    case CreateTable(t, cols, key) =>
      t !in db.tables && (forall c | c in key :: c in ColumnsByName(cols))
      && (forall i, j :: 0 <= i < j < |cols| ==> cols[i].name != cols[j].name)
    case DropTable(t) => HasTable(db, t)
    case AddColumn(t, def) => HasTable(db, t) && !HasColumn(db, t, def.name)
    case DropColumn(t, c) => HasColumn(db, t, c)
    case AlterType(t, c, _) => HasColumn(db, t, c)
    case AlterNullable(t, c, _) => HasColumn(db, t, c)
    case SetDefault(t, c, _) => HasColumn(db, t, c)
    case DropDefault(t, c) => HasColumn(db, t, c)
    case AddCheck(t, c, _) => HasColumn(db, t, c) && db.tables[t].columns[c].enumValues == []
    case DropCheck(t, c) => HasColumn(db, t, c) && db.tables[t].columns[c].enumValues != []
    case AddIndex(t, idx) =>
      HasTable(db, t) && (forall c | c in idx.columns :: HasColumn(db, t, c)) && !HasIndex(db, idx.name)
    case DropIndex(i) => HasIndex(db, i)
    case AddForeignKey(t, fk) =>
      HasColumn(db, t, fk.column) && HasColumn(db, fk.targetTable, fk.targetColumn)
        && (t, fk.constraint) !in db.foreignKeys
    case DropForeignKey(t, _) => HasTable(db, t)
    case CreateHypertable(t, c) => HasColumn(db, t, c) && db.tables[t].hypertable == ""
    case DropHypertable(t) => HasTable(db, t) && db.tables[t].hypertable != ""
  }

  /** The effect of one statement; a statement on something absent changes nothing, and an
      index is created IF NOT EXISTS. */
  function Step(db: Db, op: Operation): Db {
    match op
    case CreateExtension(e) => db.(extensions := db.extensions + {e})
    case DropExtension(e) => db.(extensions := db.extensions - {e})
    case CreateTable(t, cols, key) => WithTable(db, t, DbTable(RenderedAll(ColumnsByName(cols)), key, map[], ""))
    case DropTable(t) =>
      db.(tables := db.tables - {t},
          foreignKeys :=
            map k | k in db.foreignKeys && k.0 != t && db.foreignKeys[k].targetTable != t :: db.foreignKeys[k])
    case AddColumn(t, def) => if HasTable(db, t) then WithColumn(db, t, def.name, Rendered(def)) else db
    case DropColumn(t, c) =>
      if !HasColumn(db, t, c) then db else
        var tbl := db.tables[t];
        WithTable(db, t,
          DbTable(tbl.columns - {c}, PrunePrimaryKey(tbl.primaryKey, {c}), PruneIndexes(tbl.indexes, {c}),
            tbl.hypertable))
          .(foreignKeys := PruneForeignKeys(db.foreignKeys, t, {c}))
    case AlterType(t, c, typ) =>
      if HasColumn(db, t, c) then WithColumn(db, t, c, db.tables[t].columns[c].(typ := typ)) else db
    case AlterNullable(t, c, b) =>
      if HasColumn(db, t, c) then WithColumn(db, t, c, db.tables[t].columns[c].(nullable := b)) else db
    case SetDefault(t, c, e) =>
      if HasColumn(db, t, c) then WithColumn(db, t, c, db.tables[t].columns[c].(default_ := Some(e))) else db
    case DropDefault(t, c) =>
      if HasColumn(db, t, c) then WithColumn(db, t, c, db.tables[t].columns[c].(default_ := None)) else db
    case AddCheck(t, c, vs) =>
      if HasColumn(db, t, c) then WithColumn(db, t, c, db.tables[t].columns[c].(enumValues := vs)) else db
    case DropCheck(t, c) =>
      if HasColumn(db, t, c) then WithColumn(db, t, c, db.tables[t].columns[c].(enumValues := [])) else db
    case AddIndex(t, idx) =>
      if !HasTable(db, t) || HasIndex(db, idx.name) then db
      else WithTable(db, t, db.tables[t].(indexes := db.tables[t].indexes[idx.name := idx]))
    case DropIndex(i) => db.(tables := map t | t in db.tables :: db.tables[t].(indexes := db.tables[t].indexes - {i}))
    case AddForeignKey(t, fk) => db.(foreignKeys := db.foreignKeys[(t, fk.constraint) := fk])
    case DropForeignKey(t, k) => db.(foreignKeys := db.foreignKeys - {(t, k)})
    case CreateHypertable(t, c) => if HasTable(db, t) then WithTable(db, t, db.tables[t].(hypertable := c)) else db
    case DropHypertable(t) => if HasTable(db, t) then WithTable(db, t, db.tables[t].(hypertable := "")) else db
  }

  /** The database after running a list of statements. */
  function Run(db: Db, ops: seq<Operation>): Db {
    if ops == [] then db else Step(Run(db, ops[..|ops| - 1]), ops[|ops| - 1])
  }

  /** Every statement is enabled where it stands in the list. */
  predicate AllEnabled(db: Db, ops: seq<Operation>) {
    ops == [] || (AllEnabled(db, ops[..|ops| - 1]) && Enabled(Run(db, ops[..|ops| - 1]), ops[|ops| - 1]))
  }

  lemma {:induction false} RunConcat(db: Db, a: seq<Operation>, b: seq<Operation>)
    ensures Run(db, a + b) == Run(Run(db, a), b)
    ensures AllEnabled(db, a + b) <==> AllEnabled(db, a) && AllEnabled(Run(db, a), b)
  {
    if b == [] {
      assert a + b == a;
    } else {
      assert (a + b)[..|a + b| - 1] == a + b[..|b| - 1];
      RunConcat(db, a, b[..|b| - 1]);
    }
  }

  lemma RunOne(db: Db, op: Operation)
    ensures Run(db, [op]) == Step(db, op)
    ensures AllEnabled(db, [op]) <==> Enabled(db, op)
  {
    assert [op][..0] == [];
  }

  lemma RunSnoc(db: Db, ops: seq<Operation>, op: Operation)
    ensures Run(db, ops + [op]) == Step(Run(db, ops), op)
    ensures AllEnabled(db, ops + [op]) <==> AllEnabled(db, ops) && Enabled(Run(db, ops), op)
  {
    assert (ops + [op])[..|ops|] == ops;
  }

  // Single steps on a table whose columns or indexes are already partly changed

  lemma StepAddColumn(db: Db, t: string, columns: map<string, DbColumn>, def: Column)
    requires t in db.tables
    ensures Step(WithColumns(db, t, columns), AddColumn(t, def))
      == WithColumns(db, t, columns[def.name := Rendered(def)])
    ensures Enabled(WithColumns(db, t, columns), AddColumn(t, def)) <==> def.name !in columns
  {
    WithTableTwice(db, t, db.tables[t].(columns := columns),
      db.tables[t].(columns := columns[def.name := Rendered(def)]));
  }

  lemma StepAddIndex(db: Db, t: string, indexes: map<string, Index>, idx: Index)
    requires t in db.tables && idx.name !in indexes
    requires forall c :: c in idx.columns ==> c in db.tables[t].columns
    ensures Step(WithIndexes(db, t, indexes), AddIndex(t, idx))
      == WithIndexes(db, t, if Blocked(db, t, idx.name) then indexes else indexes[idx.name := idx])
    ensures Enabled(WithIndexes(db, t, indexes), AddIndex(t, idx)) <==> !Blocked(db, t, idx.name)
  {
    var mid := WithIndexes(db, t, indexes);
    if Blocked(db, t, idx.name) {
      var u :| u in db.tables && u != t && idx.name in db.tables[u].indexes;
      assert idx.name in mid.tables[u].indexes;
    }
    assert HasIndex(mid, idx.name) <==> Blocked(db, t, idx.name);
    WithTableTwice(db, t, db.tables[t].(indexes := indexes), db.tables[t].(indexes := indexes[idx.name := idx]));
  }

  /** An index name already in use on another table: CREATE INDEX IF NOT EXISTS then does nothing. */
  ghost predicate Blocked(db: Db, t: string, i: string) {
    exists u :: u in db.tables && u != t && i in db.tables[u].indexes
  }

  lemma StepDropIndex(db: Db, t: string, indexes: map<string, Index>, i: string)
    requires t in db.tables && i in indexes && !Blocked(db, t, i)
    ensures Step(WithIndexes(db, t, indexes), DropIndex(i)) == WithIndexes(db, t, indexes - {i})
    ensures Enabled(WithIndexes(db, t, indexes), DropIndex(i))
  {
    var mid := WithIndexes(db, t, indexes);
    assert i in mid.tables[t].indexes;
    forall u | u in db.tables && u != t ensures mid.tables[u].indexes - {i} == db.tables[u].indexes {
    }
    assert Step(mid, DropIndex(i)).tables == WithIndexes(db, t, indexes - {i}).tables;
  }

  lemma PruneTwice(indexes: map<string, Index>, key: seq<string>, fks: map<FkKey, ForeignKey>, t: string,
      a: set<string>, b: set<string>)
    ensures PruneIndexes(PruneIndexes(indexes, a), b) == PruneIndexes(indexes, a + b)
    ensures PrunePrimaryKey(PrunePrimaryKey(key, a), b) == PrunePrimaryKey(key, a + b)
    ensures PruneForeignKeys(PruneForeignKeys(fks, t, a), t, b) == PruneForeignKeys(fks, t, a + b)
  {
  }

  lemma PruneNothing(indexes: map<string, Index>, key: seq<string>, fks: map<FkKey, ForeignKey>, t: string)
    ensures PruneIndexes(indexes, {}) == indexes
    ensures PrunePrimaryKey(key, {}) == key
    ensures PruneForeignKeys(fks, t, {}) == fks
  {
  }

  // The database that a snapshot describes.

  ghost function Described(t: Table): DbTable {
    DbTable(RenderedAll(Columns(t)), t.primaryKey, Indexes(t), t.hypertableColumn)
  }

  ghost predicate HasForeignKey(tables: map<string, Table>, k: FkKey) {
    k.0 in tables && k.1 in ForeignKeys(tables[k.0])
  }

  ghost function ForeignKeyAt(tables: map<string, Table>, k: FkKey): ForeignKey
    requires HasForeignKey(tables, k)
  {
    ForeignKeys(tables[k.0])[k.1]
  }

  ghost function ForeignKeySet(tables: map<string, Table>): (r: set<FkKey>)
    ensures forall k: FkKey :: k in r <==> HasForeignKey(tables, k)
  {
    var r := set t, c | t in tables && c in ForeignKeys(tables[t]) :: (t, c);
    assert forall k: FkKey :: HasForeignKey(tables, k) ==> (k.0, k.1) in r;
    r
  }

  ghost function AllForeignKeys(tables: map<string, Table>): map<FkKey, ForeignKey> {
    map k | k in ForeignKeySet(tables) :: ForeignKeyAt(tables, k)
  }

  ghost function DbOf(s: Schema): Db {
    Db(set e | e in s.extensions,
       map t | t in Tables(s) :: Described(Tables(s)[t]),
       AllForeignKeys(Tables(s)))
  }
}
