/** The schema snapshot (generator/schema_snapshot.go): the value that the differ compares. */
module SchemaSnapshot {
  import opened Names
  import opened Results

  datatype Column = Column(
    name: string, typ: string, nullable: bool, unique: bool,
    defaultExpr: string, defaultNow: bool, identity: bool,
    generatedExpr: string, dependencies: seq<string>, readOnly: bool, enumValues: seq<string>)

  datatype Index = Index(
    name: string, columns: seq<string>, unique: bool, method_: string, where_: string, nullsNotDistinct: bool)

  datatype ForeignKey = ForeignKey(
    column: string, targetTable: string, targetColumn: string, constraint: string, onDelete: string, onUpdate: string)

  datatype Table = Table(
    name: string, columns: seq<Column>, primaryKey: seq<string>, indexes: seq<Index>,
    foreignKeys: seq<ForeignKey>, hypertableColumn: string, isJoinTable: bool)

  datatype Schema = Schema(tables: seq<Table>, extensions: seq<string>)

  /** The DEFAULT clause of a column: generated columns have none, `now()` wins over an expression. */
  function ColumnDefault(col: Column): Option<string> {
    if col.generatedExpr != "" then None
    else if col.defaultNow then Some("now()")
    else if col.defaultExpr != "" then Some(col.defaultExpr)
    else None
  }

  // What a loop `for _, x := range xs { m[x.Name] = x }` leaves in m: later entries win.

  function TablesByName(xs: seq<Table>): map<string, Table> {
    if xs == [] then map[] else TablesByName(xs[..|xs| - 1])[xs[|xs| - 1].name := xs[|xs| - 1]]
  }

  function ColumnsByName(xs: seq<Column>): map<string, Column> {
    if xs == [] then map[] else ColumnsByName(xs[..|xs| - 1])[xs[|xs| - 1].name := xs[|xs| - 1]]
  }

  function IndexesByName(xs: seq<Index>): map<string, Index> {
    if xs == [] then map[] else IndexesByName(xs[..|xs| - 1])[xs[|xs| - 1].name := xs[|xs| - 1]]
  }

  function ForeignKeysByName(xs: seq<ForeignKey>): map<string, ForeignKey> {
    if xs == [] then map[]
    else ForeignKeysByName(xs[..|xs| - 1])[xs[|xs| - 1].constraint := xs[|xs| - 1]]
  }

  lemma {:induction false} TableKeys(xs: seq<Table>)
    ensures forall n :: n in TablesByName(xs) ==> TablesByName(xs)[n].name == n && TablesByName(xs)[n] in xs
    ensures forall x :: x in xs ==> x.name in TablesByName(xs)
  {
    if xs != [] {
      TableKeys(xs[..|xs| - 1]);
      assert xs == xs[..|xs| - 1] + [xs[|xs| - 1]];
    }
  }

  lemma {:induction false} ColumnKeys(xs: seq<Column>)
    ensures forall n :: n in ColumnsByName(xs) ==> ColumnsByName(xs)[n].name == n && ColumnsByName(xs)[n] in xs
    ensures forall x :: x in xs ==> x.name in ColumnsByName(xs)
  {
    if xs != [] {
      ColumnKeys(xs[..|xs| - 1]);
      assert xs == xs[..|xs| - 1] + [xs[|xs| - 1]];
    }
  }

  lemma {:induction false} IndexKeys(xs: seq<Index>)
    ensures forall n :: n in IndexesByName(xs) ==> IndexesByName(xs)[n].name == n && IndexesByName(xs)[n] in xs
    ensures forall x :: x in xs ==> x.name in IndexesByName(xs)
  {
    if xs != [] {
      IndexKeys(xs[..|xs| - 1]);
      assert xs == xs[..|xs| - 1] + [xs[|xs| - 1]];
    }
  }

  lemma {:induction false} ForeignKeyKeys(xs: seq<ForeignKey>)
    ensures forall n :: n in ForeignKeysByName(xs) ==>
      ForeignKeysByName(xs)[n].constraint == n && ForeignKeysByName(xs)[n] in xs
    ensures forall x :: x in xs ==> x.constraint in ForeignKeysByName(xs)
  {
    if xs != [] {
      ForeignKeyKeys(xs[..|xs| - 1]);
      assert xs == xs[..|xs| - 1] + [xs[|xs| - 1]];
    }
  }

  lemma {:induction false} IndexUnique(xs: seq<Index>)
    requires forall i, j :: 0 <= i < j < |xs| ==> xs[i].name != xs[j].name
    ensures forall x :: x in xs ==> x.name in IndexesByName(xs) && IndexesByName(xs)[x.name] == x
  {
    if xs != [] {
      IndexUnique(xs[..|xs| - 1]);
      assert xs == xs[..|xs| - 1] + [xs[|xs| - 1]];
    }
  }

  lemma {:induction false} ForeignKeyUnique(xs: seq<ForeignKey>)
    requires forall i, j :: 0 <= i < j < |xs| ==> xs[i].constraint != xs[j].constraint
    ensures forall x :: x in xs ==> x.constraint in ForeignKeysByName(xs) && ForeignKeysByName(xs)[x.constraint] == x
  {
    if xs != [] {
      ForeignKeyUnique(xs[..|xs| - 1]);
      assert xs == xs[..|xs| - 1] + [xs[|xs| - 1]];
    }
  }

  ghost function Indexes(t: Table): map<string, Index> { IndexesByName(t.indexes) }
  ghost function Columns(t: Table): map<string, Column> { ColumnsByName(t.columns) }
  ghost function ForeignKeys(t: Table): map<string, ForeignKey> { ForeignKeysByName(t.foreignKeys) }
  ghost function Tables(s: Schema): map<string, Table> { TablesByName(s.tables) }

  ghost predicate WellFormedTable(t: Table) {
    && (forall i, j :: 0 <= i < j < |t.columns| ==> t.columns[i].name != t.columns[j].name)
    && (forall i, j :: 0 <= i < j < |t.indexes| ==> t.indexes[i].name != t.indexes[j].name)
    && (forall i, j :: 0 <= i < j < |t.foreignKeys| ==> t.foreignKeys[i].constraint != t.foreignKeys[j].constraint)
    && (forall c :: c in t.primaryKey ==> c in Columns(t))
    && (t.hypertableColumn == "" || t.hypertableColumn in Columns(t))
    && (forall i, c :: i in Indexes(t) && c in Indexes(t)[i].columns ==> c in Columns(t))
    && (forall k :: k in ForeignKeys(t) ==> ForeignKeys(t)[k].column in Columns(t))
  }

  ghost predicate Resolves(s: Schema, fk: ForeignKey) {
    fk.targetTable in Tables(s) && fk.targetColumn in Columns(Tables(s)[fk.targetTable])
  }

  /** What a snapshot must satisfy for its own CREATE statements to run: distinct names
      (index names over the whole schema), and every reference is to something that exists. */
  ghost predicate WellFormed(s: Schema) {
    && (forall i, j :: 0 <= i < j < |s.tables| ==> s.tables[i].name != s.tables[j].name)
    && (forall t :: t in Tables(s) ==> WellFormedTable(Tables(s)[t]))
    && (forall t, u, i ::
      t in Tables(s) && u in Tables(s) && i in Indexes(Tables(s)[t]) && i in Indexes(Tables(s)[u]) ==> t == u)
    && (forall t, k :: t in Tables(s) && k in ForeignKeys(Tables(s)[t]) ==> Resolves(s, ForeignKeys(Tables(s)[t])[k]))
  }
}
