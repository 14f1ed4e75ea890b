/** The whole migration: the plan of generateMigrations (generator/migrations.go) run on
    the database of the previous snapshot. */
module Migration {
  import opened Names
  import opened Results
  import opened SchemaSnapshot
  import opened Database
  import opened SchemaDiff
  import opened PatchPhases
  import opened TablePatch
  import opened SchemaPatch

  // Adding the deferred foreign keys

  /** A foreign key that the migration adds: it is new or changed, or its table is new. */
  ghost predicate Added(P: TableMap, N: TableMap, k: FkKey) {
    HasForeignKey(N, k) && (k.0 in P ==> !Kept(ForeignKeys(P[k.0]), ForeignKeys(N[k.0]), k.1))
  }

  /** ... and how: the foreign keys of a new table lose their actions. */
  ghost function AddedAs(P: TableMap, N: TableMap, k: FkKey): ForeignKey
    requires HasForeignKey(N, k)
  {
    if k.0 in P then ForeignKeyAt(N, k) else WithoutActions(ForeignKeyAt(N, k))
  }

  /** The foreign keys `base` with those of the tables in `done` added. */
  ghost function KeysAdded(P: TableMap, N: TableMap, base: map<FkKey, ForeignKey>,
      done: set<string>): map<FkKey, ForeignKey>
  {
    map k | k in base.Keys + ForeignKeySet(N) && (k in base || (k.0 in done && Added(P, N, k))) ::
      if k in base then base[k] else AddedAs(P, N, k)
  }

  /** The foreign keys of the previous snapshot that survive the other statements. */
  ghost function Surviving(P: TableMap, N: TableMap): map<FkKey, ForeignKey> {
    KeysAfter(P, N, SharedTables(P, N))
  }

  lemma AddedIsNotThere(P: TableMap, N: TableMap, k: FkKey)
    requires Added(P, N, k)
    ensures k !in Surviving(P, N)
  {
    if k in AllForeignKeys(P) { assert HasForeignKey(P, k); }
  }

  ghost function Linked(P: TableMap, N: TableMap, ext: set<string>, done: set<string>): Db {
    Built(P, N, ext, N.Keys - P.Keys).(foreignKeys := KeysAdded(P, N, Surviving(P, N), done))
  }

  lemma LinkedNothing(P: TableMap, N: TableMap, ext: set<string>, made: set<string>)
    requires forall t :: t in made <==> t in N && t !in P
    ensures Built(P, N, ext, made) == Linked(P, N, ext, {})
  {
    assert made == N.Keys - P.Keys;
    NoKeysAdded(P, N, Surviving(P, N));
  }

  lemma NoKeysAdded(P: TableMap, N: TableMap, base: map<FkKey, ForeignKey>)
    ensures KeysAdded(P, N, base, {}) == base
  {
  }

  lemma LinkedColumn(P: TableMap, N: TableMap, ext: set<string>, done: set<string>, t: string, c: string)
    requires t in N && c in Columns(N[t])
    ensures HasColumn(Linked(P, N, ext, done), t, c)
  {
    if t in P {
      assert c in ColumnsAfter(P[t], N[t]);
    } else {
      assert c in RenderedAll(Columns(N[t]));
    }
  }

  lemma LinkedTargets(P: TableMap, N: TableMap, ext: set<string>, done: set<string>, k: FkKey, fk: ForeignKey)
    requires MapsWellFormed(N) && HasForeignKey(N, k) && WithoutActions(fk) == WithoutActions(ForeignKeyAt(N, k))
    ensures FkTargetsExist(Linked(P, N, ext, done), k.0, fk)
  {
    assert ResolvesIn(N, ForeignKeyAt(N, k)) by {
      assert k in AllForeignKeys(N) && AllForeignKeys(N)[k] == ForeignKeyAt(N, k);
    }
    LinkedColumn(P, N, ext, done, k.0, fk.column);
    LinkedColumn(P, N, ext, done, fk.targetTable, fk.targetColumn);
  }

  lemma KeysAddedStep(P: TableMap, N: TableMap, base: map<FkKey, ForeignKey>, done: set<string>, t: string,
      names: seq<string>, added: map<string, ForeignKey>)
    requires forall k :: k in names ==> k in added && (t, k) !in base
    requires forall k :: k in names <==> Added(P, N, (t, k))
    requires forall k :: k in names ==> Added(P, N, (t, k)) && added[k] == AddedAs(P, N, (t, k))
    ensures AddedKeys(KeysAdded(P, N, base, done), t, names, added) == KeysAdded(P, N, base, done + {t})
  {
    AddedKeysAt(KeysAdded(P, N, base, done), t, names, added);
    SameKeys(P, N, base, done, t, names, added, AddedKeys(KeysAdded(P, N, base, done), t, names, added));
  }

  lemma SameKeys(P: TableMap, N: TableMap, base: map<FkKey, ForeignKey>, done: set<string>, t: string,
      names: seq<string>, added: map<string, ForeignKey>, m: map<FkKey, ForeignKey>)
    requires forall k :: k in names ==> k in added && (t, k) !in base
    requires forall k :: k in names <==> Added(P, N, (t, k))
    requires forall k :: k in names ==> Added(P, N, (t, k)) && added[k] == AddedAs(P, N, (t, k))
    requires forall k: FkKey :: k in m <==> k in KeysAdded(P, N, base, done) || (k.0 == t && k.1 in names)
    requires forall k: FkKey :: k in m ==> m[k] == if k.0 == t && k.1 in names then added[k.1]
      else KeysAdded(P, N, base, done)[k]
    ensures m == KeysAdded(P, N, base, done + {t})
  {
    var b := KeysAdded(P, N, base, done + {t});
    forall k: FkKey ensures k in m <==> k in b {
      if k.0 == t { assert k == (t, k.1); }
    }
    forall k: FkKey | k in m ensures m[k] == b[k] {
      if k.0 == t { assert k == (t, k.1); }
    }
  }

  /** Adding the foreign keys of one table, from a list of their names. */
  lemma RunKeys(P: TableMap, N: TableMap, ext: set<string>, done: set<string>, t: string, names: seq<string>,
      added: map<string, ForeignKey>)
    requires MapsWellFormed(N) && t in N && t !in done && Distinct(names) && forall k :: k in names ==> k in added
    requires forall k :: k in names <==> Added(P, N, (t, k))
    requires forall k :: k in names ==> Added(P, N, (t, k)) && added[k] == AddedAs(P, N, (t, k))
    ensures Run(Linked(P, N, ext, done), ForeignKeyAdds(t, names, added)) == Linked(P, N, ext, done + {t})
    ensures AllEnabled(Linked(P, N, ext, done), ForeignKeyAdds(t, names, added))
  {
    var db := Linked(P, N, ext, done);
    ForeignKeyKeys(N[t].foreignKeys);
    forall k | k in names
      ensures added[k].constraint == k && FkTargetsExist(db, t, added[k]) && (t, k) !in db.foreignKeys
    {
      LinkedTargets(P, N, ext, done, (t, k), added[k]);
      AddedIsNotThere(P, N, (t, k));
    }
    RunForeignKeyAdds(db, t, names, added);
    KeysAddedStep(P, N, Surviving(P, N), done, t, names, added);
  }

  lemma RunSharedTableKeys(P: TableMap, N: TableMap, ext: set<string>, done: set<string>, t: string)
    requires MapsWellFormed(N) && t in N && t in P && t !in done
    ensures Run(Linked(P, N, ext, done), TableFkOps(P[t], N[t])) == Linked(P, N, ext, done + {t})
    ensures AllEnabled(Linked(P, N, ext, done), TableFkOps(P[t], N[t]))
  {
    var names := Sorted({}, Changed(ForeignKeys(N[t]), ForeignKeys(P[t])));
    RunKeys(P, N, ext, done, t, names, ForeignKeys(N[t]));
  }

  lemma ConstraintList(t: Table)
    requires WellFormedTable(t)
    ensures Distinct(ConstraintNames(t.foreignKeys))
    ensures forall k :: k in ConstraintNames(t.foreignKeys) <==> k in ForeignKeys(t)
  {
    var names := ConstraintNames(t.foreignKeys);
    ForeignKeyKeys(t.foreignKeys);
    forall k | k in ForeignKeys(t) ensures k in names {
      var i :| 0 <= i < |t.foreignKeys| && t.foreignKeys[i] == ForeignKeys(t)[k];
      assert names[i] == k;
    }
  }

  lemma ConstraintAdds(t: Table)
    requires WellFormedTable(t) && forall k :: k in ConstraintNames(t.foreignKeys) ==> k in ForeignKeys(t)
    ensures ForeignKeyCreates(t.name, t.foreignKeys)
      == ForeignKeyAdds(t.name, ConstraintNames(t.foreignKeys), ActionFree(ForeignKeys(t)))
  {
    ForeignKeyUnique(t.foreignKeys);
    CreatesAreAdds(t.name, t.foreignKeys, ForeignKeys(t));
  }

  lemma RunNewTableKeys(P: TableMap, N: TableMap, ext: set<string>, done: set<string>, t: string)
    requires MapsWellFormed(N) && t in N && t !in P && t !in done
    ensures Run(Linked(P, N, ext, done), ForeignKeyCreates(N[t].name, N[t].foreignKeys))
      == Linked(P, N, ext, done + {t})
    ensures AllEnabled(Linked(P, N, ext, done), ForeignKeyCreates(N[t].name, N[t].foreignKeys))
  {
    ConstraintList(N[t]);
    ConstraintAdds(N[t]);
    RunKeys(P, N, ext, done, t, ConstraintNames(N[t].foreignKeys), ActionFree(ForeignKeys(N[t])));
  }

  lemma Chain(db: Db, a: Operations, mid: Db, b: Operations, end: Db)
    requires Run(db, a) == mid && AllEnabled(db, a) && Run(mid, b) == end && AllEnabled(mid, b)
    ensures Run(db, a + b) == end && AllEnabled(db, a + b)
  {
    RunConcat(db, a, b);
  }

  lemma {:induction false} RunAllSharedKeys(P: TableMap, N: TableMap, ext: set<string>, names: seq<string>,
      all: set<string>)
    requires MapsWellFormed(N) && Distinct(names) && forall t :: t in names ==> t in P && t in N
    requires forall t :: t in all <==> t in names
    ensures Run(Linked(P, N, ext, {}), SharedKeys(names, P, N)) == Linked(P, N, ext, all)
    ensures AllEnabled(Linked(P, N, ext, {}), SharedKeys(names, P, N))
  {
    if names == [] {
      assert all == {};
    } else {
      var t := names[|names| - 1];
      DistinctInit(names);
      RunAllSharedKeys(P, N, ext, names[..|names| - 1], all - {t});
      assert all - {t} + {t} == all;
      AddSharedTableKeys(P, N, ext, names, all - {t});
    }
  }

  lemma AddSharedTableKeys(P: TableMap, N: TableMap, ext: set<string>, names: seq<string>, before: set<string>)
    requires MapsWellFormed(N) && names != [] && forall t :: t in names ==> t in P && t in N
    requires var init, t := names[..|names| - 1], names[|names| - 1];
      && t !in before
      && Run(Linked(P, N, ext, {}), SharedKeys(init, P, N)) == Linked(P, N, ext, before)
      && AllEnabled(Linked(P, N, ext, {}), SharedKeys(init, P, N))
    ensures Run(Linked(P, N, ext, {}), SharedKeys(names, P, N)) == Linked(P, N, ext, before + {names[|names| - 1]})
    ensures AllEnabled(Linked(P, N, ext, {}), SharedKeys(names, P, N))
  {
    var init, t := names[..|names| - 1], names[|names| - 1];
    RunSharedTableKeys(P, N, ext, before, t);
    Chain(Linked(P, N, ext, {}), SharedKeys(init, P, N), Linked(P, N, ext, before), TableFkOps(P[t], N[t]),
      Linked(P, N, ext, before + {t}));
  }

  lemma {:induction false} RunAllNewKeys(P: TableMap, N: TableMap, ext: set<string>, done: set<string>,
      names: seq<string>, all: set<string>)
    requires MapsWellFormed(N) && Distinct(names) && forall t :: t in names ==> t !in P && t in N && t !in done
    requires forall t :: t in all <==> t in done || t in names
    ensures Run(Linked(P, N, ext, done), NewKeys(names, N)) == Linked(P, N, ext, all)
    ensures AllEnabled(Linked(P, N, ext, done), NewKeys(names, N))
  {
    if names == [] {
      assert all == done;
    } else {
      var init, t := names[..|names| - 1], names[|names| - 1];
      DistinctInit(names);
      var before := all - {t};
      assert before + {t} == all;
      assert forall x :: x in before <==> x in done || x in init;
      RunAllNewKeys(P, N, ext, done, init, before);
      AddNewTableKeys(P, N, ext, done, names, before);
    }
  }

  lemma AddNewTableKeys(P: TableMap, N: TableMap, ext: set<string>, done: set<string>, names: seq<string>,
      before: set<string>)
    requires MapsWellFormed(N) && names != [] && forall t :: t in names ==> t in N
    requires var init, t := names[..|names| - 1], names[|names| - 1];
      && t !in P && t !in before
      && Run(Linked(P, N, ext, done), NewKeys(init, N)) == Linked(P, N, ext, before)
      && AllEnabled(Linked(P, N, ext, done), NewKeys(init, N))
    ensures Run(Linked(P, N, ext, done), NewKeys(names, N)) == Linked(P, N, ext, before + {names[|names| - 1]})
    ensures AllEnabled(Linked(P, N, ext, done), NewKeys(names, N))
  {
    var init, t := names[..|names| - 1], names[|names| - 1];
    RunNewTableKeys(P, N, ext, before, t);
    NewKeysSnoc(names, N);
    Chain(Linked(P, N, ext, done), NewKeys(init, N), Linked(P, N, ext, before),
      ForeignKeyCreates(N[t].name, N[t].foreignKeys), Linked(P, N, ext, before + {t}));
  }

  lemma NewKeysSnoc(names: seq<string>, N: TableMap)
    requires names != [] && forall t :: t in names ==> t in N
    ensures var t := N[names[|names| - 1]];
      NewKeys(names, N) == NewKeys(names[..|names| - 1], N) + ForeignKeyCreates(t.name, t.foreignKeys)
  {
  }

  // The dropped tables

  lemma DroppedKeys(P: TableMap, N: TableMap, gone: seq<string>)
    requires MapsWellFormed(P) && forall t :: t in gone <==> t in P && t !in N
    ensures forall k: FkKey :: k in AllForeignKeys(P) ==>
      ((k.0 !in gone && AllForeignKeys(P)[k].targetTable !in gone) <==> KeyRemains(P, N, {}, k, AllForeignKeys(P)[k]))
  {
    forall k: FkKey | k in AllForeignKeys(P)
      ensures (k.0 !in gone && AllForeignKeys(P)[k].targetTable !in gone) <==>
        KeyRemains(P, N, {}, k, AllForeignKeys(P)[k])
    {
      assert HasForeignKey(P, k) && ResolvesIn(P, AllForeignKeys(P)[k]);
    }
  }

  lemma DropTablesResult(P: TableMap, N: TableMap, ext: set<string>, gone: seq<string>)
    requires MapsWellFormed(P) && forall t :: t in gone <==> t in P && t !in N
    ensures WithoutTables(Db(ext, map t | t in P :: Described(P[t]), AllForeignKeys(P)), gone) == Midway(P, N, ext, {})
  {
    DroppedKeys(P, N, gone);
    SameMidway(P, N, ext, gone);
  }

  lemma SameMidway(P: TableMap, N: TableMap, ext: set<string>, gone: seq<string>)
    requires forall t :: t in gone <==> t in P && t !in N
    requires forall k: FkKey :: k in AllForeignKeys(P) ==>
      ((k.0 !in gone && AllForeignKeys(P)[k].targetTable !in gone) <==> KeyRemains(P, N, {}, k, AllForeignKeys(P)[k]))
    ensures WithoutTables(Db(ext, map t | t in P :: Described(P[t]), AllForeignKeys(P)), gone) == Midway(P, N, ext, {})
  {
    var db := Db(ext, map t | t in P :: Described(P[t]), AllForeignKeys(P));
    assert WithoutTables(db, gone).tables == Midway(P, N, ext, {}).tables;
  }

  // The whole plan

  /** The statements in the order of the migration files. */
  ghost function MigrationOps(p: Schema, n: Schema): Operations {
    Immediate(SchemaOps(p, n)) + Deferred(SchemaOps(p, n))
  }

  /** The database that the migration leaves. */
  ghost function Patched(p: Schema, n: Schema): Db {
    var P, N := Tables(p), Tables(n);
    Db(set e | e in n.extensions,
       map t | t in N :: if t in P then TableAfter(P, N, t) else Described(N[t]),
       KeysAdded(P, N, Surviving(P, N), N.Keys))
  }

  /** No index that is new or changed on a table is in `p` an index of a table that the
      differ treats later. */
  ghost predicate IndexesMoveForward(p: Schema, n: Schema) {
    forall t :: t in Tables(p) && t in Tables(n) ==> NoIndexMovesBack(Tables(p), Tables(n), t)
  }

  lemma SplitPlan(p: Schema, n: Schema)
    ensures var P, N := Tables(p), Tables(n);
      var shared, fresh_ := Sorted({}, P.Keys * N.Keys), Sorted(Joins(N), N.Keys - P.Keys);
      MigrationOps(p, n) == ExtensionOps(set e | e in p.extensions, set e | e in n.extensions)
        + TableDrops(Sorted(Joins(P), P.Keys - N.Keys)) + SharedImmediate(shared, P, N) + NewImmediate(fresh_, N)
        + (SharedKeys(shared, P, N) + NewKeys(fresh_, N))
  {
    var P, N := Tables(p), Tables(n);
    var pe, ne := set e | e in p.extensions, set e | e in n.extensions;
    var shared, fresh_ := Sorted({}, P.Keys * N.Keys), Sorted(Joins(N), N.Keys - P.Keys);
    var gone := Sorted(Joins(P), P.Keys - N.Keys);
    NameListsHaveNoKeys("", Sorted({}, pe - ne));
    NameListsHaveNoKeys("", Sorted({}, ne - pe));
    NameListsHaveNoKeys("", gone);
    SplitUniform(ExtensionOps(pe, ne));
    SplitUniform(TableDrops(gone));
    SplitShared(shared, P, N);
    SplitNew(fresh_, N);
    SplitConcat(TableDrops(gone), SharedOps(shared, P, N));
    SplitConcat(TableDrops(gone) + SharedOps(shared, P, N), NewOps(fresh_, N));
    SplitConcat(ExtensionOps(pe, ne), TableListOps(P, N));
    Reassociate(ExtensionOps(pe, ne), TableDrops(gone), SharedImmediate(shared, P, N), NewImmediate(fresh_, N),
      SharedKeys(shared, P, N), NewKeys(fresh_, N));
  }

  lemma Reassociate(a: Operations, b: Operations, c: Operations, d: Operations, e: Operations, f: Operations)
    ensures (a + (b + c + d)) + ([] + (([] + e) + f)) == a + b + c + d + (e + f)
  {
  }

  lemma RunExtensionDropSet(db: Db, gone: set<string>)
    requires gone <= db.extensions
    ensures var ops := ExtensionDrops(Sorted({}, gone));
      Run(db, ops) == db.(extensions := db.extensions - gone) && AllEnabled(db, ops)
  {
    RunExtensionDrops(db, Sorted({}, gone));
    assert (set e | e in Sorted({}, gone)) == gone;
  }

  lemma RunExtensionCreateSet(db: Db, fresh_: set<string>)
    requires fresh_ !! db.extensions
    ensures var ops := ExtensionCreates(Sorted({}, fresh_));
      Run(db, ops) == db.(extensions := db.extensions + fresh_) && AllEnabled(db, ops)
  {
    RunExtensionCreates(db, Sorted({}, fresh_));
    assert (set e | e in Sorted({}, fresh_)) == fresh_;
  }

  lemma RunExtensions(db: Db, p: set<string>, n: set<string>)
    requires db.extensions == p
    ensures Run(db, ExtensionOps(p, n)) == db.(extensions := n)
    ensures AllEnabled(db, ExtensionOps(p, n))
  {
    var mid := db.(extensions := p - (p - n));
    RunExtensionDropSet(db, p - n);
    RunExtensionCreateSet(mid, n - p);
    assert p - (p - n) + (n - p) == n;
    Chain(db, ExtensionDrops(Sorted({}, p - n)), mid, ExtensionCreates(Sorted({}, n - p)), db.(extensions := n));
  }

  lemma RunDropsAndShared(P: TableMap, N: TableMap, ext: set<string>)
    requires MapsWellFormed(P) && MapsWellFormed(N)
    ensures var db := Db(ext, map t | t in P :: Described(P[t]), AllForeignKeys(P));
      var ops := TableDrops(Sorted(Joins(P), P.Keys - N.Keys)) + SharedImmediate(Sorted({}, P.Keys * N.Keys), P, N);
      && Run(db, ops) == Built(P, N, ext, {})
      && (AllEnabled(db, ops) <==> forall t :: t in P && t in N ==> NoIndexMovesBack(P, N, t))
  {
    var db := Db(ext, map t | t in P :: Described(P[t]), AllForeignKeys(P));
    var gone, shared := Sorted(Joins(P), P.Keys - N.Keys), Sorted({}, P.Keys * N.Keys);
    RunTableDrops(db, gone);
    DropTablesResult(P, N, ext, gone);
    RunShared(P, N, ext, shared);
    MidwayIsBuilt(P, N, ext, set t | t in shared);
    RunConcat(db, TableDrops(gone), SharedImmediate(shared, P, N));
  }

  lemma RunNewAndKeys(P: TableMap, N: TableMap, ext: set<string>)
    requires MapsWellFormed(N)
    ensures var shared, fresh_ := Sorted({}, P.Keys * N.Keys), Sorted(Joins(N), N.Keys - P.Keys);
      var ops := NewImmediate(fresh_, N) + (SharedKeys(shared, P, N) + NewKeys(fresh_, N));
      && Run(Built(P, N, ext, {}), ops) == Linked(P, N, ext, N.Keys)
      && AllEnabled(Built(P, N, ext, {}), ops)
  {
    var shared, fresh_ := Sorted({}, P.Keys * N.Keys), Sorted(Joins(N), N.Keys - P.Keys);
    var made, done := set t | t in fresh_, set t | t in shared;
    RunNew(P, N, ext, fresh_, made);
    LinkedNothing(P, N, ext, made);
    RunAllSharedKeys(P, N, ext, shared, done);
    RunAllNewKeys(P, N, ext, done, fresh_, N.Keys);
    Chain(Linked(P, N, ext, {}), SharedKeys(shared, P, N), Linked(P, N, ext, done), NewKeys(fresh_, N),
      Linked(P, N, ext, N.Keys));
    Chain(Built(P, N, ext, {}), NewImmediate(fresh_, N), Linked(P, N, ext, {}),
      SharedKeys(shared, P, N) + NewKeys(fresh_, N), Linked(P, N, ext, N.Keys));
  }

  lemma LinkedIsPatched(p: Schema, n: Schema)
    ensures Linked(Tables(p), Tables(n), (set e | e in n.extensions), Tables(n).Keys) == Patched(p, n)
  {
    var P, N := Tables(p), Tables(n);
    assert Linked(P, N, (set e | e in n.extensions), N.Keys).tables == Patched(p, n).tables;
  }

  /** The migration of any two well-formed snapshots, cyclic foreign keys included: it leaves
      exactly the patched database, and every statement is enabled where it stands just when
      no index name moves to a table that is treated before its old one. */
  lemma MigrationIsPatch(p: Schema, n: Schema)
    requires WellFormed(p) && WellFormed(n)
    ensures Run(DbOf(p), MigrationOps(p, n)) == Patched(p, n)
    ensures AllEnabled(DbOf(p), MigrationOps(p, n)) <==> IndexesMoveForward(p, n)
  {
    var P, N := Tables(p), Tables(n);
    var pe, ne := set e | e in p.extensions, set e | e in n.extensions;
    var shared, fresh_ := Sorted({}, P.Keys * N.Keys), Sorted(Joins(N), N.Keys - P.Keys);
    var gone := Sorted(Joins(P), P.Keys - N.Keys);
    SchemaMaps(p);
    SchemaMaps(n);
    SplitPlan(p, n);
    var first := TableDrops(gone) + SharedImmediate(shared, P, N);
    var second := NewImmediate(fresh_, N) + (SharedKeys(shared, P, N) + NewKeys(fresh_, N));
    RunExtensions(DbOf(p), pe, ne);
    RunDropsAndShared(P, N, ne);
    RunNewAndKeys(P, N, ne);
    LinkedIsPatched(p, n);
    ThreeParts(ExtensionOps(pe, ne), TableDrops(gone), SharedImmediate(shared, P, N), NewImmediate(fresh_, N),
      SharedKeys(shared, P, N) + NewKeys(fresh_, N));
    RunThree(DbOf(p), ExtensionOps(pe, ne), first, second, MigrationOps(p, n));
  }

  lemma ThreeParts(a: Operations, b: Operations, c: Operations, d: Operations, e: Operations)
    ensures a + b + c + d + e == a + (b + c) + (d + e)
  {
  }

  lemma RunThree(db: Db, a: Operations, b: Operations, c: Operations, all: Operations)
    requires all == a + b + c
    ensures Run(db, all) == Run(Run(Run(db, a), b), c)
    ensures AllEnabled(db, all) <==> AllEnabled(db, a) && AllEnabled(Run(db, a), b) && AllEnabled(Run(Run(db, a), b), c)
  {
    RunConcat(db, a, b);
    RunConcat(db, a + b, c);
  }
}
