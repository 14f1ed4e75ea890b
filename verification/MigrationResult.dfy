/** The database that a migration leaves, object by object and in the words of the two snapshots,
    whether or not it is the wanted one. */
module MigrationResult {
  import opened Names
  import opened Results
  import opened SchemaSnapshot
  import opened Database
  import opened SchemaDiff
  import opened PatchPhases
  import opened TablePatch
  import opened SchemaPatch
  import opened Migration
  import opened MigrationFaithful

  // Columns

  /** The column is as a column definition says: `now()` goes before a default expression, and a
      generated column has no default. */
  predicate IsDefined(d: DbColumn, col: Column) {
    && d.typ == col.typ && d.nullable == col.nullable && d.unique == col.unique && d.enumValues == col.enumValues
    && d.default_ == (if col.generatedExpr == "" && col.defaultNow then Some("now()")
      else if col.generatedExpr == "" && col.defaultExpr != "" then Some(col.defaultExpr)
      else None)
  }

  lemma RenderedIsDefined(col: Column)
    ensures IsDefined(Rendered(col), col)
  {
  }

  /** The column is dropped, or generated or read-only in one of the snapshots and dropped and added
      again because of a difference in expression, type, nullability, uniqueness or being read-only. */
  ghost predicate Drops(p: Table, n: Table, c: string) {
    c in Columns(p) && (c !in Columns(n) ||
      var o, col := Columns(p)[c], Columns(n)[c];
      && (o.generatedExpr != "" || col.generatedExpr != "" || o.readOnly || col.readOnly)
      && (o.generatedExpr != col.generatedExpr || o.typ != col.typ || o.nullable != col.nullable
        || o.unique != col.unique || o.readOnly != col.readOnly))
  }

  lemma DropsLost(p: Table, n: Table, c: string)
    ensures Drops(p, n, c) <==> c in Lost(p, n)
  {
  }

  /** What is left of a column of a shared table: a new or remade one is as defined; a generated or
      read-only one that is not remade is as before; and any other takes over all but UNIQUE. */
  ghost predicate ColumnLeft(d: DbColumn, p: Table, n: Table, c: string)
    requires c in Columns(n)
  {
    var col := Columns(n)[c];
    if c !in Columns(p) || Drops(p, n, c) then IsDefined(d, col)
    else
      var o := Columns(p)[c];
      if o.generatedExpr != "" || col.generatedExpr != "" || o.readOnly || col.readOnly then IsDefined(d, o)
      else IsDefined(d, col.(unique := o.unique))
  }

  lemma PatchedColumnLeft(p: Table, n: Table, c: string)
    requires c in Columns(n)
    ensures c in ColumnsAfter(p, n) && ColumnLeft(ColumnsAfter(p, n)[c], p, n, c)
  {
    RenderedIsDefined(Columns(n)[c]);
    if c in Columns(p) { RenderedIsDefined(Columns(p)[c]); }
  }

  // Indexes and primary keys

  /** An unchanged index is there unless one of its columns was dropped; a new or changed one unless
      its name was still in use on a later table. */
  ghost predicate IndexLeft(P: TableMap, N: TableMap, t: string, i: string)
    requires t in P && t in N && i in Indexes(N[t])
  {
    if i in Indexes(P[t]) && Indexes(P[t])[i] == Indexes(N[t])[i] then
      forall c :: c in Indexes(N[t])[i].columns ==> !Drops(P[t], N[t], c)
    else
      forall u :: u in P && u in N && i in Indexes(P[u]) ==> !Lexicographic(t, u)
  }

  lemma IndexLeftSurvives(P: TableMap, N: TableMap, t: string, i: string)
    requires t in P && t in N && i in Indexes(N[t])
    ensures IndexLeft(P, N, t, i) <==> IndexSurvives(P, N, t, i)
  {
    forall c ensures Drops(P[t], N[t], c) <==> c in Lost(P[t], N[t]) { DropsLost(P[t], N[t], c); }
    forall u ensures Less(t, u) <==> Lexicographic(t, u) { LessIsLexicographic(t, u); }
    hide Lost, Drops, Less, Lexicographic;
  }

  ghost predicate SharedTableLeft(r: DbTable, P: TableMap, N: TableMap, t: string)
    requires t in P && t in N
  {
    && r.hypertable == N[t].hypertableColumn
    && r.columns.Keys == Columns(N[t]).Keys
    && (forall c :: c in Columns(N[t]) ==> ColumnLeft(r.columns[c], P[t], N[t], c))
    && r.primaryKey == (if exists c :: c in P[t].primaryKey && Drops(P[t], N[t], c) then [] else P[t].primaryKey)
    && (forall i :: i in r.indexes <==> i in Indexes(N[t]) && IndexLeft(P, N, t, i))
    && (forall i :: i in r.indexes ==> r.indexes[i] == Indexes(N[t])[i])
  }

  ghost predicate NewTableLeft(r: DbTable, n: Table) {
    && r.hypertable == n.hypertableColumn && r.primaryKey == n.primaryKey && r.indexes == Indexes(n)
    && r.columns.Keys == Columns(n).Keys
    && (forall c :: c in Columns(n) ==> IsDefined(r.columns[c], Columns(n)[c]))
  }

  lemma DescribedLeft(n: Table)
    ensures NewTableLeft(Described(n), n)
  {
    forall c | c in Columns(n) ensures IsDefined(Described(n).columns[c], Columns(n)[c]) {
      RenderedIsDefined(Columns(n)[c]);
    }
  }

  lemma KeyLeft(p: Table, n: Table)
    ensures PrunePrimaryKey(p.primaryKey, Lost(p, n))
      == if exists c :: c in p.primaryKey && Drops(p, n, c) then [] else p.primaryKey
  {
    forall c ensures Drops(p, n, c) <==> c in Lost(p, n) { DropsLost(p, n, c); }
    hide Lost, Drops;
  }

  lemma TableAfterLeft(P: TableMap, N: TableMap, t: string)
    requires t in P && t in N
    ensures SharedTableLeft(TableAfter(P, N, t), P, N, t)
  {
    hide Drops, Lost, IndexLeft, IndexSurvives, ColumnLeft, PatchedColumn, Rendered, Indexes, Columns;
    KeyLeft(P[t], N[t]);
    forall c | c in Columns(N[t])
      ensures c in ColumnsAfter(P[t], N[t]) && ColumnLeft(ColumnsAfter(P[t], N[t])[c], P[t], N[t], c)
    {
      PatchedColumnLeft(P[t], N[t], c);
    }
    forall i | i in Indexes(N[t]) ensures IndexLeft(P, N, t, i) <==> IndexSurvives(P, N, t, i) {
      IndexLeftSurvives(P, N, t, i);
    }
    hide PrunePrimaryKey;
  }

  // Foreign keys

  /** A foreign key of the previous snapshot that stays: it is unchanged, and neither of its columns
      is dropped. */
  ghost predicate KeyStays(P: TableMap, N: TableMap, k: FkKey)
    requires HasForeignKey(N, k)
  {
    var fk := ForeignKeyAt(N, k);
    && k.0 in P && k.1 in ForeignKeys(P[k.0]) && ForeignKeys(P[k.0])[k.1] == fk
    && !Drops(P[k.0], N[k.0], fk.column)
    && (fk.targetTable in P && fk.targetTable in N ==> !Drops(P[fk.targetTable], N[fk.targetTable], fk.targetColumn))
  }

  /** A new or changed foreign key is added, as it is on a table that was there and without its actions
      on a new one; an unchanged one is there if it stays. */
  ghost predicate KeysLeft(r: map<FkKey, ForeignKey>, P: TableMap, N: TableMap) {
    && (forall k: FkKey :: k in r ==> HasForeignKey(N, k))
    && forall k: FkKey {:trigger HasForeignKey(N, k)} :: HasForeignKey(N, k) ==>
      var fk := ForeignKeyAt(N, k);
      if k.0 in P && k.1 in ForeignKeys(P[k.0]) && ForeignKeys(P[k.0])[k.1] == fk then
        (k in r <==> KeyStays(P, N, k)) && (k in r ==> r[k] == fk)
      else
        k in r && r[k] == if k.0 in P then fk else
          ForeignKey(fk.column, fk.targetTable, fk.targetColumn, fk.constraint, "", "")
  }

  lemma KeptKeyStays(P: TableMap, N: TableMap, k: FkKey)
    requires MapsWellFormed(P) && MapsWellFormed(N) && HasForeignKey(N, k) && !Added(P, N, k)
    ensures k in Surviving(P, N) <==> KeyStays(P, N, k)
    ensures k in Surviving(P, N) ==> Surviving(P, N)[k] == ForeignKeyAt(N, k)
  {
    KeptKeyResolves(P, N, k);
    KeptKeyExact(P, N, k);
    var fk := ForeignKeyAt(N, k);
    DropsLost(P[k.0], N[k.0], fk.column);
    DropsLost(P[fk.targetTable], N[fk.targetTable], fk.targetColumn);
    hide Lost, Drops, Surviving, MapsWellFormed;
  }

  lemma OneKeyLeft(P: TableMap, N: TableMap, k: FkKey)
    requires MapsWellFormed(P) && MapsWellFormed(N) && HasForeignKey(N, k)
    ensures var r, fk := KeysAdded(P, N, Surviving(P, N), N.Keys), ForeignKeyAt(N, k);
      if k.0 in P && k.1 in ForeignKeys(P[k.0]) && ForeignKeys(P[k.0])[k.1] == fk then
        (k in r <==> KeyStays(P, N, k)) && (k in r ==> r[k] == fk)
      else
        k in r && r[k] == if k.0 in P then fk else
          ForeignKey(fk.column, fk.targetTable, fk.targetColumn, fk.constraint, "", "")
  {
    if Added(P, N, k) {
      AddedIsNotThere(P, N, k);
      hide Surviving, KeyStays;
    } else {
      KeptKeyStays(P, N, k);
      hide Surviving, KeyStays;
    }
  }

  lemma AddedKeysLeft(P: TableMap, N: TableMap)
    requires MapsWellFormed(P) && MapsWellFormed(N)
    ensures KeysLeft(KeysAdded(P, N, Surviving(P, N), N.Keys), P, N)
  {
    var r := KeysAdded(P, N, Surviving(P, N), N.Keys);
    forall k: FkKey | k in r ensures HasForeignKey(N, k) { NoOtherKeys(P, N, k); }
    hide KeysAdded, Surviving, MapsWellFormed, KeyStays, HasForeignKey;
    forall k: FkKey | HasForeignKey(N, k)
      ensures var fk := ForeignKeyAt(N, k);
        if k.0 in P && k.1 in ForeignKeys(P[k.0]) && ForeignKeys(P[k.0])[k.1] == fk then
          (k in r <==> KeyStays(P, N, k)) && (k in r ==> r[k] == fk)
        else
          k in r && r[k] == if k.0 in P then fk else
            ForeignKey(fk.column, fk.targetTable, fk.targetColumn, fk.constraint, "", "")
    {
      OneKeyLeft(P, N, k);
    }
  }

  // The whole database

  ghost predicate Leaves(r: Db, p: Schema, n: Schema) {
    var P, N := Tables(p), Tables(n);
    && (forall e :: e in r.extensions <==> e in n.extensions)
    && r.tables.Keys == N.Keys
    && (forall t :: t in N ==>
      if t in P then SharedTableLeft(r.tables[t], P, N, t) else NewTableLeft(r.tables[t], N[t]))
    && KeysLeft(r.foreignKeys, P, N)
  }

  lemma PatchedParts(p: Schema, n: Schema)
    ensures var r, P, N := Patched(p, n), Tables(p), Tables(n);
      && (forall e :: e in r.extensions <==> e in n.extensions)
      && r.tables.Keys == N.Keys
      && (forall t :: t in N ==> r.tables[t] == if t in P then TableAfter(P, N, t) else Described(N[t]))
      && r.foreignKeys == KeysAdded(P, N, Surviving(P, N), N.Keys)
  {
    hide TableAfter, Described, KeysAdded, Surviving, Tables;
  }

  lemma PatchedLeaves(p: Schema, n: Schema)
    requires WellFormed(p) && WellFormed(n)
    ensures Leaves(Patched(p, n), p, n)
  {
    hide SharedTableLeft, NewTableLeft, KeysLeft, TableAfter, Described, KeysAdded, Surviving, Tables, Patched;
    hide WellFormed, MapsWellFormed;
    SchemaMaps(p);
    SchemaMaps(n);
    var P, N := Tables(p), Tables(n);
    PatchedParts(p, n);
    AddedKeysLeft(P, N);
    forall t | t in N
      ensures if t in P then SharedTableLeft(Patched(p, n).tables[t], P, N, t)
        else NewTableLeft(Patched(p, n).tables[t], N[t])
    {
      if t in P { TableAfterLeft(P, N, t); } else { DescribedLeft(N[t]); }
    }
  }

  /** What the migration between any two well-formed snapshots leaves. */
  lemma MigrationLeaves(p: Schema, n: Schema)
    requires WellFormed(p) && WellFormed(n)
    ensures Leaves(Run(DbOf(p), MigrationOps(p, n)), p, n)
  {
    hide *;
    MigrationIsPatch(p, n);
    PatchedLeaves(p, n);
  }

  /** And what the database of a snapshot is. */
  lemma DatabaseOf(s: Schema)
    ensures var db, T := DbOf(s), Tables(s);
      && (forall e :: e in db.extensions <==> e in s.extensions)
      && db.tables.Keys == T.Keys && (forall t :: t in T ==> NewTableLeft(db.tables[t], T[t]))
      && (forall k: FkKey :: k in db.foreignKeys <==> k.0 in T && k.1 in ForeignKeys(T[k.0]))
      && forall k: FkKey :: k in db.foreignKeys ==> db.foreignKeys[k] == ForeignKeys(T[k.0])[k.1]
  {
    forall t | t in Tables(s) ensures NewTableLeft(Described(Tables(s)[t]), Tables(s)[t]) {
      DescribedLeft(Tables(s)[t]);
    }
  }
}
