# erm in Dafny

erm generates an ORM, a GraphQL layer and SQL migrations from a schema DSL written in Go, and
ships the runtime for them. This project models the parts of it that plan and run migrations,
route reads, fan out events and page through records, and proves what they keep. `dafny verify
dfyconfig.toml` checks all of it.

The code that works step by step is modelled step by step: loops with invariants, an array of
entities or files updated in place, classes for the tracking table, the broker, the database
handle, the observed row, the planner's entries and the user client. Beside each stands a
function on values or a state machine, and the theorems are about those. Calls into databases,
clocks, hooks and id generators are parameters or may come out either way.

- **From entities to a snapshot.** `Entities` holds the DSL values, `InverseEdges` closes the edges
  under inverses, `MigrationPlan` and `PlanTheorems` derive columns, keys and join tables,
  `PlanProvenance` and `InversePairs` trace them back to the edges that ask for them.
  `SnapshotNormal`, `SnapshotBuild`, `SnapshotTheorems` and `SnapshotConditions` build the
  normalised snapshot and say exactly when it is well formed; `PlanColumns` and `SnapshotContents`
  say what it holds of the declared fields and edges. `MigrationOrder` and `OrderTheorems` are
  Kahn's algorithm.
- **From two snapshots to a database.** `SchemaSnapshot`, `Database` and `SchemaDiff` are the
  snapshot, the statements with their effect, and the differ. `PatchPhases`, `TablePatch`,
  `SchemaPatch` and `Migration` run the statements phase by phase and arrive at a closed form;
  `DiffStatements` and `MigrationResult` spell out the statements and the database they leave;
  `MigrationFaithful` says exactly when it is the wanted database, `MigrationLimits` gives a pair of
  snapshots for each way in which it is not, and `Generation` joins this with the planner.
- **Files and the runner.** `MigrationFiles` and `MigrationDiscovery` go from statements to file names
  and back to versions, `MigrationNames` and `DirectoryContents` spell out both; `MigrationRunner` is one run of Plan, Apply or Rollback, `MigrationBatches`
  whole histories of one runner, `MigrationLocking` any number of concurrent runners.
- **Broker.** `Broker` has the calls, `BrokerInterleaving` their interleavings, `BrokerBuffers` what the
  buffers hold in them.
- **Reads.** `ReplicaRouting` and `ReplicaConcurrency` choose replicas, `Failover` falls back to the
  primary and ends observations.
- **GraphQL identifiers and pages.** `Base64` after section 4 of RFC 4648, `Relay`, and `Pagination` after
  the pagination algorithm of the GraphQL Cursor Connections Specification.
- **ORM runtime.** `SqlBuilders`, `BulkUpdate`, `SelectBuilder`, `EntityCache`.
- **Helpers.** `Names`, `Sorting`, `Decimals`, `Results`.

Where the code does less than its comments say, the model follows the code:

- The differ does not always lead to the next snapshot. The condition is exact
  (`MigrationFaithful.Faithful`); each part of it has a counterexample in `MigrationLimits`.
- Statements are enabled unless an index name moves to a table that is treated earlier.
- `Rollback` is documented to take back the most recently applied migration. It takes one with the
  latest `applied_at`, which is the time at which its transaction began: rows of one Apply tie, and a
  run that waited longer for the lock is older. After an Apply of any batch size it is bound to take
  the last script exactly if that was the only one and its transaction began after all recorded
  ones (`RollbackTakesLastScript`, `RollbackTakesLastRun`).
- Every observation of an `observedRow` is ended exactly once, unless Scan is never called, or the
  first Scan succeeds and a later one fails on a row that still holds its fallback. The condition is
  exact (`ObservationsEndOnce`).
- A generator run that writes several files leaves a directory that `Discover` refuses, because all
  the files carry the same version; a run of one file is accepted (`RunIsAccepted`). If the slug of
  that file is "down" or ends in "_down", the file counts as a rollback script and is never applied.
- Two edges may ask for one column. The first in the order of the walk decides its foreign key; a
  later edge with another target has its column refer to the wrong table (`EdgeIsPlanned`,
  `SecondTargetLoses`). So does the first edge to name a join table decide its sides.
- An added to-many inverse may ask for another column than its to-one edge, if it is walked first and
  an edge of the same name as the column is there (`InversePairs`).
- A many-to-many edge from an entity to itself plans a join table with two columns of one name
  (`SelfJoinCollides`).

## Model

| member | source | states |
|---|---|---|
| `Migration.MigrationIsPatch` | generator/schema_diff.go:35-478 | running the ordered diff of any two well-formed snapshots on the database of the first gives exactly `Patched`, a closed form of the two snapshots; and every statement is enabled where it stands if and only if no index name moves to an earlier table |
| `MigrationResult.MigrationLeaves` | generator/schema_diff.go:35-478 | what the migration between any two well-formed snapshots leaves, object by object in their own words: each column with its type, flags, check and DEFAULT clause, now() before an expression and none for a generated column; each primary key, index and foreign key, with the ones that dropped columns take along |
| `MigrationResult.DatabaseOf` | generator/schema_diff.go:456-478 | what the database of a snapshot is, in the same words |
| `DiffStatements.DiffIsExact` | generator/schema_diff.go:35-478 | which statements the diff of any two well-formed snapshots has: each kind if and only if its own condition on the two snapshots holds, with its literal payload |
| `DiffStatements.TablesInOrder` | generator/schema_diff.go:75-140 | and where they stand: dropped tables first, then shared, then new ones, join tables last within each and by name |
| `DiffStatements.OrderedIsPermutation` | generator/migrations.go:128-145 | ordering the statements keeps each as often as it was there, with the added foreign keys after all others |
| `MigrationFaithful.MigrationReachesNext` | generator/schema_diff.go:35-478 | the migration reaches the database that the next snapshot describes if and only if the two snapshots meet `Faithful`, a condition on columns, primary keys, indexes and foreign keys |
| `MigrationFaithful.AlwaysAgrees` | generator/schema_diff.go:142-478 | whatever the snapshots, the result has the extensions, tables, hypertables, column types and nullability of the next snapshot, the defaults and enum values of plain columns, and no foreign key that the next snapshot does not have |
| `MigrationFaithful.DiffSelfIsEmpty` | generator/schema_diff.go:35-40 | the diff of any snapshot with itself is empty |
| `MigrationFaithful.EmptyDiffChangesNothing` | generator/schema_diff.go:35-40 | when the diff is empty the database already is what a migration would leave; it is the described one exactly under `Faithful` |
| `MigrationFaithful.PlanOperations` | generator/migrations.go:42-110 | diff, then order: the plan is empty for equal snapshots, runs to `Patched`, and reaches the next database if and only if `Faithful` |
| `MigrationLimits.UniqueIsMissed` | generator/schema_diff.go:229-302 | two concrete snapshots: UNIQUE added to a plain column is missed |
| `MigrationLimits.ReadOnlyDefaultIsMissed` | generator/schema_diff.go:231-246 | two concrete snapshots: a new default of a read-only column is missed |
| `MigrationLimits.ReadOnlyEnumIsMissed` | generator/schema_diff.go:231-246 | two concrete snapshots: new enum values of a read-only column are missed |
| `MigrationLimits.PrimaryKeyIsMissed` | generator/schema_diff.go:142-165 | two concrete snapshots: a changed primary key is missed |
| `MigrationLimits.ActionsAreLost` | generator/schema_diff.go:456-478 | two concrete snapshots: the foreign key of a new table loses its ON DELETE |
| `MigrationLimits.KeyIsLost` | generator/schema_diff.go:375-428 | two concrete snapshots: an unchanged foreign key on a regenerated column is lost |
| `MigrationLimits.KeyToOtherIsLost` | generator/schema_diff.go:375-428 | two concrete snapshots: an unchanged foreign key to a regenerated column of another table is lost |
| `MigrationLimits.IndexIsLost` | generator/schema_diff.go:321-358 | two concrete snapshots: an unchanged index on a regenerated column is lost |
| `MigrationLimits.IndexMovesBack` | generator/schema_diff.go:142-165 | two concrete snapshots: an index name that moves to an earlier table makes a statement that is not enabled |
| `SchemaPatch.RunShared` | generator/schema_diff.go:75-140 | running the immediate statements of the shared tables one table after another gives the closed form of all of them |
| `TablePatch.RunImmediate` | generator/schema_diff.go:142-227 | running the immediate statements of one shared table gives its patched form and leaves the other tables alone; they are enabled if and only if none of its indexes moves back |
| `PatchPhases.RunPlainColumn` | generator/schema_diff.go:248-302 | the ALTER statements of a plain column turn it into the next one, except for UNIQUE |
| `PatchPhases.RunSharedColumns` | generator/schema_diff.go:167-227 | the statements of all shared columns, in the order emitted, give the patched columns |
| `Database.RunConcat` | generator/migrations.go:111-126 | running a list of statements is running its first part and then the rest, and so for enabledness |
| `SchemaDiff.DiffSchema` | generator/schema_diff.go:35-40 | extension statements, then table statements: the list `SchemaOps` that the patch theorems are about |
| `SchemaDiff.DiffExtensions` | generator/schema_diff.go:42-73 | drops of the extensions that are gone, then creates of the new ones, each sorted |
| `SchemaDiff.DiffTables` | generator/schema_diff.go:75-140 | drops, shared tables and creates, each in sorted order, join tables last |
| `SchemaDiff.DiffTable` | generator/schema_diff.go:142-165 | index and key drops, columns, index adds, hypertable, key adds, in that order |
| `SchemaDiff.DiffColumns` | generator/schema_diff.go:167-227 | adds, shared columns and drops in sorted order |
| `SchemaDiff.DiffColumn` | generator/schema_diff.go:229-302 | the statements for one shared column: regenerate, nothing, or type, nullability, default and check; SET DEFAULT now() or the expression exactly if that changes |
| `SchemaDiff.DefaultStatements` | generator/schema_diff.go:248-302 | SET DEFAULT and DROP DEFAULT are emitted for a plain column if and only if its clause changes, with now() if it defaults to the time, else the expression |
| `SchemaDiff.DiffIndexes` | generator/schema_diff.go:321-358 | the changed indexes dropped and added, sorted by name |
| `SchemaDiff.DiffForeignKeys` | generator/schema_diff.go:375-428 | the changed foreign keys dropped and added, sorted by constraint |
| `SchemaDiff.DiffHypertable` | generator/schema_diff.go:434-454 | drop and create statements when the hypertable column changes |
| `SchemaDiff.CreateTableOps` | generator/schema_diff.go:456-478 | the table, its indexes, its hypertable, and its foreign keys without actions |
| `SchemaDiff.OrderMigrationOperations` | generator/migrations.go:128-145 | all other statements in order, then the added foreign keys in order |
| `Names.CollectSorted` | generator/schema_diff.go:75-140 | however a range loop over a map meets the keys, sorting them gives the one sorted list of the wanted ones |
| `Names.SortedUnique` | generator/schema_diff.go:75-140 | an ascending list of names is determined by its members |
| `SnapshotNormal.NormalizeSnapshot` | generator/schema_snapshot.go:93-113 | the normal form: tables, indexes, foreign keys and dependencies sorted |
| `SnapshotNormal.NormalIsFixpoint` | generator/schema_snapshot.go:93-113 | a normal snapshot is in order, and normalising it again changes nothing |
| `SnapshotNormal.NormalIsInOrder` | generator/schema_snapshot.go:93-113 | in a normal snapshot join tables come last, and tables, extensions, indexes, keys and dependencies are in dictionary order |
| `SnapshotNormal.NormalKeepsDatabase` | generator/schema_snapshot.go:93-113 | normalising keeps the described database and well-formedness |
| `SnapshotBuild.BuildTable` | generator/schema_snapshot.go:118-183 | the columns, primary key, indexes, foreign keys and hypertable of a planned entity |
| `SnapshotBuild.BuildSchemaSnapshot` | generator/schema_snapshot.go:115-232 | the normal form of the planned tables and join tables, in whatever order the join tables are met |
| `SnapshotContents.SnapshotHolds` | generator/schema_snapshot.go:115-232 | what the snapshot of any entities with distinct columns holds, in terms of their fields and edges: each declared column with its type, default, check and expression, each added one with the type of the field it refers to, each nullable or unique if and only if its field or an edge that asks for it is, primary keys, hypertable columns, indexes, keys with their actions, and join tables with two typed columns that are not null |
| `SnapshotConditions.SnapshotIsWellFormed` | generator/schema_snapshot.go:115-232 | for entities with distinct columns, the snapshot is well formed if and only if, of the entities and edges alone: no two tables or asked-for join tables share a name, index names are distinct, indexes are on declared columns or ones that edges ask for, and the sides of every edge that defines a join table have different names |
| `SnapshotConditions.JoinColumnsExact` | generator/migrations.go:605-644 | the planned join tables have two columns of different names if and only if the two sides of the first edge to name each differ |
| `SnapshotConditions.SelfJoinCollides` | generator/migrations.go:605-644 | if an edge from an entity to itself is the first to name its join table, the table has two columns of one name and the snapshot is not well formed |
| `Generation.SnapshotIsDeterministic` | generator/schema_snapshot.go:185-218 | with distinct table names the snapshot does not depend on the iteration order of the join-table map |
| `Generation.EntitiesMigrate` | generator/migrations.go:42-110 | for any two lists of entities that meet those conditions, the migration between their snapshots is enabled, agrees, and reaches its goal under the same conditions as for snapshots |
| `Generation.RegenerationIsFixpoint` | generator/migrations.go:42-110 | generating twice from the same entities with distinct columns and table names gives equal snapshots and no statement |
| `PlanTheorems.PlanIsGood` | generator/migrations.go:411-458 | for all entities with distinct columns: fieldIndex is exact, declared fields come first and are only made nullable or unique, one foreign key per column, and all references of keys and join tables resolve |
| `PlanColumns.FlagsAreExact` | generator/migrations.go:539-550 | a planned column is nullable (or unique) if and only if it is declared so or an edge that asks for it is |
| `PlanColumns.PrimaryExact` | generator/migrations.go:692-702 | the primary field is the first one marked so, or the first field if none is |
| `PlanTheorems.ResolvedColumnIsPlanned` | generator/migrations.go:411-458 | what a reference resolves to is a column of a planned table |
| `PlanProvenance.ToOneEdgesArePlanned` | generator/migrations.go:527-566 | every to-one edge with a known target ends up with its column, as nullable and unique as the edge says, and one foreign key on it; that is the key to the target, spelled out, if and only if the first edge to ask for the column wants this key; a column that it adds has the types of the primary field it refers to |
| `PlanProvenance.ToManyEdgesArePlanned` | generator/migrations.go:568-603 | every to-many edge ends up with a column on the target, and exactly which: its reference column, or that of the edge there of this name if there was no such column yet; the key back to the source, spelled out, is on it if and only if the first edge to ask for the column wants this key; a column that it adds has the types of the primary field it refers to |
| `PlanProvenance.FindEdgeExact` | generator/migrations.go:671-678 | an edge is found by name if and only if there is one, and it is the first |
| `PlanProvenance.ManyToManyEdgesArePlanned` | generator/migrations.go:605-644 | every many-to-many edge with a known target has its join table, between its own sides, spelled out, if and only if the first edge to name the table has them |
| `PlanProvenance.JoinsComeFromEdges` | generator/migrations.go:605-644 | a join table is planned if and only if an edge asks for it, and the first such edge defines it |
| `PlanProvenance.ColumnsComeFromEdges` | generator/migrations.go:411-458 | a table has exactly the columns that are declared or that edges ask for, and a foreign key exactly on those that edges ask for |
| `PlanProvenance.KeysComeFromEdges` | generator/migrations.go:527-603 | a foreign key is planned if and only if the first edge to ask for its column wants it |
| `PlanProvenance.FirstEdgeDecides` | generator/migrations.go:527-603 | the first edge to ask for a column decides its only foreign key, and its type unless it is declared |
| `PlanProvenance.EdgeIsPlanned` | generator/migrations.go:527-603 | every edge that asks for a column gets it, with its own key if and only if the first to ask wants the same |
| `PlanProvenance.OneKeyPerColumn` | generator/migrations.go:552-565 | of two edges that want different keys on one column, at most one has its key |
| `PlanProvenance.SecondTargetLoses` | generator/migrations.go:552-565 | three concrete entities: the second of two edges that share a column has a key to the wrong table |
| `MigrationPlan.BuildMigrationPlan` | generator/migrations.go:411-458 | entries updated in place hold exactly the plan of walking all edges in order |
| `MigrationPlan.EnsureToOneColumn` | generator/migrations.go:527-566 | adds or raises the column and adds a foreign key unless the column has one |
| `MigrationPlan.EnsureToManyColumn` | generator/migrations.go:568-603 | the same on the target, on the resolved column |
| `MigrationPlan.EnsureJoinTable` | generator/migrations.go:605-644 | the first edge that names a join table defines it |
| `MigrationPlan.PlanEntry.Reference` | generator/migrations.go:539-565 | the update that both share: existing fields are only raised, existing keys stay |
| `MigrationPlan.PlanEntry.constructor` | generator/migrations.go:415-431 | a copy of the declared fields and their index |
| `InverseEdges.SynthesizeInverseEdges` | generator/parser.go:1237-1262 | afterwards every edge that names an inverse and has a known target finds it there; existing edges stay as a prefix, each added edge inverts an original one, field by field, under a new name, and closed edges are left unchanged |
| `InverseEdges.BuiltIsInverse` | generator/parser.go:1270-1326 | the built edge is the one that inverts the given one: its kind for every kind, its names, columns, flags and actions |
| `InverseEdges.InverseTwice` | generator/parser.go:1270-1326 | the inverse of the inverse has the kind of the edge if and only if the edge is not a unique to-many edge, has its names, and belongs to the same column |
| `InversePairs.SynthesizedPairIsOneColumn` | generator/parser.go:1237-1326 | after the inverse-edge pass and the planner, each added to-many edge and its to-one edge ask for the same column, field and key if and only if no edge named like the column leads the inverse to another; then the table has one column for both with one foreign key |
| `InversePairs.ToOnePairAsksAlike` | generator/parser.go:1270-1326 | the same for one pair, wherever its edges stand |
| `InversePairs.ToManyPairAsksAlike` | generator/parser.go:1270-1326 | and for a to-many edge and its to-one inverse |
| `InversePairs.LaterInverseRefersStraight` | generator/migrations.go:646-670 | an inverse that is walked after its to-one edge always agrees with it |
| `InversePairs.InverseLedAstray` | generator/migrations.go:646-670 | two concrete entities with a pair that asks for two different columns |
| `MigrationOrder.SortEntityMigrations` | generator/migrations.go:460-525 | terminates, with the tables in exactly the order `KahnOrder`, which `KahnOrderIsGreedy` spells out |
| `MigrationOrder.BuildGraph` | generator/migrations.go:464-487 | the graph and the in-degrees count the references to other known tables |
| `MigrationOrder.Release` | generator/migrations.go:503-509 | after a table is taken, the in-degrees are those of the rest and the queue is the sorted list of the ready tables |
| `OrderTheorems.KahnOrderIsGreedy` | generator/migrations.go:489-525 | each table is the first by name of those that wait for none; the rest, which all wait for one another, are in dictionary order |
| `OrderTheorems.SortedPlanIsPermutation` | generator/migrations.go:460-525 | with distinct tables the result is a permutation of the input |
| `OrderTheorems.KahnOrderIsComplete` | generator/migrations.go:460-525 | every table comes exactly once |
| `OrderTheorems.KahnOrderIsOrder` | generator/migrations.go:460-525 | if any order puts every table after those it refers to, this one does |
| `OrderTheorems.KahnOrderIsLeast` | generator/migrations.go:460-525 | and it is the first such order in dictionary order, character by character |
| `OrderTheorems.KahnOrderFailsOnCycles` | generator/migrations.go:512-525 | it is such an order if and only if no set of tables holds each other up |
| `Names.LessIsLexicographic` | generator/migrations.go:490-494 | the order of names is that of dictionaries: where two names part, the smaller one ends or has the smaller character |
| `MigrationFiles.ChunkMigrationOperations` | generator/migrations.go:147-176 | the chunks are the nonempty maximal runs of one key, and concatenate to the list |
| `MigrationNames.KeyNames` | generator/migrations.go:147-176 | the key of an operation: its table, its table and column, constraint or check, its index or extension, or its kind if that has no name |
| `MigrationFiles.ChunkingIsUnique` | generator/migrations.go:147-176 | there is only one such split |
| `MigrationFiles.OneChunkIffOneKey` | generator/migrations.go:147-176 | there is at most one file if and only if all operations share one key |
| `MigrationFiles.AssignMigrationFilenames` | generator/migrations.go:178-208 | in place, file i gets the timestamp, the slug, its number if there are several, and the suffix |
| `MigrationFiles.SlugifyForm` | generator/migrations.go:259-270 | every slug is nonempty, of a-z, 0-9 and single inner underscores |
| `MigrationFiles.SlugifySlug` | generator/migrations.go:259-270 | slugifying a slug changes nothing |
| `MigrationNames.SlugifyIsWords` | generator/migrations.go:259-270 | the slug joins the runs of letters and digits of the lower-cased name by underscores, and is "schema" if there are none |
| `MigrationNames.FileNameParts` | generator/migrations.go:178-208 | timestamp, slug and, of several files, a number from one on with at least two digits |
| `MigrationFiles.FileNamesDistinct` | generator/migrations.go:178-208 | the names of one run are pairwise distinct, however many |
| `MigrationFiles.ParseVersionOfFileName` | orm/migrate/migrate.go:109-124 | every name that a run assigns is parsed back to its timestamp |
| `MigrationNames.ParseVersionIsExact` | orm/migrate/migrate.go:106-124 | the version of any name: what precedes the extension, up to the first double underscore, else underscore, else dash that is not at its beginning; and which names have none |
| `MigrationNames.ClassifyIsExact` | orm/migrate/migrate.go:491-499 | a file undoes a migration if and only if its name has ".down." or ".rollback." in it or ends in "_down.sql" or "-down.sql", in any case |
| `MigrationFiles.IndexOfIsFirst` | orm/migrate/migrate.go:118-122 | the search for a separator finds the first one |
| `MigrationDiscovery.Discover` | orm/migrate/migrate.go:138-187 | succeeds if and only if every SQL file has a version and no version two up scripts, and else reports the first bad name or such a version; the result is sorted by version and path |
| `DirectoryContents.DiscoveredFiles` | orm/migrate/migrate.go:128-187 | the discovered files are exactly those of the SQL entries, in dictionary order of version and path, each once; two entries are up scripts of one version if and only if the files are refused |
| `MigrationDiscovery.UpsAscend` | orm/migrate/migrate.go:168-187 | the up scripts of an accepted directory, all of them, run in strictly ascending dictionary order of their versions |
| `MigrationDiscovery.GeneratedIsUp` | orm/migrate/migrate.go:491-499 | every file that a run writes has the SQL suffix and is an up script if and only if the run writes several or the slug is not "down" and does not end in "_down" |
| `MigrationDiscovery.RunIsAccepted` | orm/migrate/migrate.go:138-187 | the directory that one generator run leaves is accepted if and only if the run wrote at most one file |
| `MigrationDiscovery.GenerationIsAccepted` | generator/migrations.go:147-208 | in terms of the operations: if and only if they all share one key |
| `MigrationDiscovery.LoneFileIsApplied` | orm/migrate/migrate.go:138-187 | the one file of a run is the one up script of its directory, and if its slug ends in down there is none |
| `MigrationDiscovery.DownIsNeverApplied` | orm/migrate/migrate.go:491-499 | a run of one file named "down" is accepted and never applied |
| `MigrationRunner.SelectPending` | orm/migrate/migrate.go:345-357 | the loop picks the unapplied up scripts in order until the batch is full |
| `MigrationRunner.TrackingDb.Plan` | orm/migrate/migrate.go:214-300 | without drift, and also without a tracking table, Pending is what Apply would execute, and Applied the recorded versions once each by time; drift lists exactly the recorded versions without a file |
| `MigrationRunner.TrackingDb.Apply` | orm/migrate/migrate.go:305-391 | executes and records exactly the pending batch, at the time of the transaction and leaving the other rows, or changes nothing |
| `MigrationRunner.TrackingDb.Rollback` | orm/migrate/migrate.go:395-476 | runs the rollback script of one version with maximal applied_at and removes that row, or changes nothing; the script is the last file for that version, and says when each error occurs: there is none exactly if no file is a rollback script for it |
| `MigrationRunner.DownsExact` | orm/migrate/migrate.go:416-426 | a version has a rollback script if and only if there is a file for it, and of several the last in order counts |
| `MigrationRunner.RecordedExact` | orm/migrate/migrate.go:374-384 | recorded versions keep their times; those of the scripts that were not recorded get the given one |
| `MigrationRunner.SelectVersions` | orm/migrate/migrate.go:251-273 | the recorded versions, each once, by applied_at |
| `MigrationBatches.RunsExecuteInOrder` | orm/migrate/migrate.go:359-384 | after k runs of batch size b, exactly the first k*b scripts of one unbatched Apply are executed, in its order, and the rest is pending |
| `MigrationBatches.PendingExact` | orm/migrate/migrate.go:345-357 | the pending scripts are the up scripts not applied, in dictionary order of their versions, or as many of the first as the batch size says |
| `MigrationBatches.BatchesReachTheEnd` | orm/migrate/migrate.go:345-384 | nothing is pending if and only if at least ceil(n/b) runs were made; then the scripts executed are those of one unbatched Apply |
| `MigrationBatches.RollbackIsForced` | orm/migrate/migrate.go:428-436 | a rollback is bound to one version if and only if its applied_at is strictly later than all others |
| `MigrationBatches.RollbackTakesLastScript` | orm/migrate/migrate.go:428-475 | after an Apply of any batch size that executed scripts, a rollback is bound to take back the last of them if and only if it was the only one and its transaction began after every recorded one |
| `MigrationBatches.RollbackTakesLastRun` | orm/migrate/migrate.go:428-475 | the same of the last of any number of runs |
| `MigrationBatches.UnbatchedRowsTie` | orm/migrate/migrate.go:359-384 | after an unbatched Apply of two or more scripts on an empty table, a rollback is not bound to take back the last |
| `MigrationBatches.LongerWaitIsNotTakenBack` | orm/migrate/migrate.go:428-436 | two runs after which the version applied last is not the one that a rollback takes |
| `MigrationBatches.RollbacksReverseApplies` | orm/migrate/migrate.go:395-476 | k single-script runs at increasing times and then k rollbacks: the matching rollback scripts in reverse order, and the tracking table as before |
| `MigrationBatches.RollbacksExist` | orm/migrate/migrate.go:395-476 | and such rollbacks exist whenever there is a rollback script for each version applied |
| `MigrationLocking.AlwaysSafe` | orm/migrate/migrate.go:305-476 | in every reachable state of any number of concurrent Apply and Rollback runs that may fail anywhere: one run past the lock, its work agrees with the table, and the table is exactly the versions whose committed up scripts exceed the rollback scripts by one |
| `MigrationLocking.StepsAreAtomic` | orm/migrate/migrate.go:359-390 | each step changes the database not at all or as one whole Apply or Rollback of the run that holds the lock |
| `MigrationLocking.MutualExclusion` | orm/migrate/migrate.go:330-332 | two runs are never both between lock and commit |
| `MigrationLocking.CommitIsAtomic` | orm/migrate/migrate.go:386-390 | what a run has gathered statement by statement is, at its commit, a whole Apply or Rollback of the present table |
| `Broker.InMemoryBroker.Publish` | graphql/subscriptions/bus.go:43-68 | offers the payload to every channel of the topic, to a part of them if the context ends, and sends on no closed channel |
| `Broker.InMemoryBroker.Subscribe` | graphql/subscriptions/bus.go:71-88 | a new id and an open, empty channel of the buffer size on the topic; all else as before |
| `Broker.InMemoryBroker.Cancel` | graphql/subscriptions/bus.go:91-104 | takes the channel off the topic and closes it once; an empty topic goes, and all else stays |
| `Broker.InMemoryBroker.constructor` | graphql/subscriptions/bus.go:27-29 | no topics, buffer one |
| `Broker.Offer` | graphql/subscriptions/bus.go:59-62 | a payload is dropped exactly when the buffer is full |
| `Broker.OfferedAt` | graphql/subscriptions/bus.go:55-66 | an offer to several channels: each of them with room takes the payload at the end, and nothing else changes |
| `Broker.LeftConsistent` | graphql/subscriptions/bus.go:91-104 | a cancel keeps: open exactly while registered, no empty topic, no id on two topics |
| `Broker.JoinedConsistent` | graphql/subscriptions/bus.go:78-88 | so does a registration |
| `BrokerInterleaving.AlwaysSafe` | graphql/subscriptions/bus.go:43-111 | in every interleaving of publishers, subscribers, cancels, context ends and receivers: no panic, a channel is open exactly while it is registered, ids are never reused, no registered topic is empty, and deliveries are in order |
| `BrokerInterleaving.NoPanic` | graphql/subscriptions/bus.go:55-104 | no step sends on a closed channel or closes one, and a channel is closed by its first cancel alone |
| `BrokerInterleaving.OffersAreExact` | graphql/subscriptions/bus.go:43-68 | a registered subscriber has been offered, once and in order, each publisher's calls on its topic since it joined, except failed calls and the one in progress, and nothing else |
| `BrokerInterleaving.OnePublisher` | graphql/subscriptions/bus.go:43-68 | with one publisher, what a subscriber received and has buffered is a subsequence of what was published on its topic since it joined |
| `BrokerInterleaving.DropsOnlyWhenFull` | graphql/subscriptions/bus.go:59-62 | an offer is dropped exactly when the buffer is full, and otherwise buffered at the end |
| `BrokerBuffers.CapacityIsBuffer` | graphql/subscriptions/bus.go:71-88 | in every interleaving the capacity of a channel is the buffer size when it was made |
| `BrokerBuffers.FirstOffersAreKept` | graphql/subscriptions/bus.go:59-62 | in every interleaving a subscriber that has received nothing holds the first payloads offered to it, as many as the capacity, and only the others were dropped |
| `ReplicaRouting.DB.ReaderPool` | orm/pg/driver.go:319-371 | explicit options win over the policy named in the request, which wins over the default one; then the first replica that qualifies, by a status within its own limits that was fresh during the call, or the primary if none does; the checks after the selection never divert a read |
| `ReplicaRouting.DB.SelectReplica` | orm/pg/driver.go:381-399 | the first replica in list order whose status, fresh when looked at, qualifies; later ones are not touched |
| `ReplicaRouting.DB.RunReplicaHealthCheck` | orm/pg/driver.go:401-440 | skips the probe exactly when the last one is recent; otherwise the status of the report, healthy only within the replica's limits |
| `ReplicaRouting.DB.UseReplicaPolicies` | orm/pg/driver.go:476-495 | stores the named policies, with negative lag limits turned into none |
| `ReplicaConcurrency.ReadsAreRoutedWell` | orm/pg/driver.go:381-440 | in every interleaving of reads with a positive interval: a read goes to the first qualifying replica, judged by statuses no older than the interval and within the replicas' limits, and to the primary only if none qualifies |
| `ReplicaConcurrency.HealthFollowsLastProbe` | orm/pg/driver.go:401-440 | in every interleaving a replica is healthy if and only if its last finished probe succeeded within its own limits, and its status is what that probe reported |
| `ReplicaConcurrency.ProbesAreSpaced` | orm/pg/driver.go:401-440 | one probe of a replica at a time, each no sooner than one interval after the previous one finished |
| `ReplicaConcurrency.AlwaysSafe` | orm/pg/driver.go:381-440 | the invariant of all reachable states behind both |
| `Failover.QueryWithOperation` | orm/pg/driver.go:267-305 | the primary is retried exactly after an allowed replica error, and each observation is ended once with the outcome of its own query |
| `Failover.ObservedRow.Scan` | orm/pg/driver.go:566-597 | one Scan call: its outcome exactly, which guard fires, what is ended with which outcome, which row is left |
| `Failover.ScannedEnds` | orm/pg/driver.go:566-597 | which observations a Scan call ends, with which outcomes and in which order |
| `Failover.ObservedRow.constructor` | orm/pg/driver.go:279-291 | one observation; a fallback is held only for an allowed replica read |
| `Failover.ObservationsEndOnce` | orm/pg/driver.go:566-597 | for any number of Scan calls, every observation is ended exactly once if and only if Scan is called at all and it is not the case that a fallback is held, the first call succeeds and a later one fails |
| `Failover.FallbackAtMostOnce` | orm/pg/driver.go:566-597 | the primary is used as a fallback at most once: exactly if it is allowed, the replica failed, and there was a primary when it first did |
| `Failover.LateFailure` | orm/pg/driver.go:566-597 | two calls after which an observation was not ended exactly once |
| `Base64.DecodeEncode` | graphql/relay/id.go:9-14 | decoding undoes encoding for all byte strings |
| `Base64.EncodeGroup` | graphql/relay/id.go:9-14 | three bytes are four letters of six bits each, from the highest bits on |
| `Base64.EncodeEnd` | graphql/relay/id.go:9-14 | a last group of one or two bytes is filled up with zero bits and padding |
| `Relay.OpaqueTexts` | graphql/resolvers/query.resolvers.go:19-22 | a global id holds the type, a colon and the id; a cursor "cursor:" and the decimal offset |
| `Base64.RejectsOthers` | graphql/resolvers/entities_gen.go:133-136 | a text with a character outside alphabet, padding and line breaks is rejected |
| `Relay.GlobalIDRoundTrip` | graphql/relay/id.go:9-23 | a global id gives back its type and id if and only if the type name has no colon |
| `Relay.SplitUnique` | graphql/relay/id.go:18-22 | splitting at the first colon undoes joining with a colon-free type |
| `Relay.UserIDRoundTrip` | graphql/resolvers/entities_gen.go:129-141 | the id of a user global id is decoded |
| `Relay.RawUserID` | graphql/resolvers/entities_gen.go:129-141 | a nonempty raw id passes unchanged if and only if it is not the base64 form of a text with a colon |
| `Relay.RejectedUserID` | graphql/resolvers/entities_gen.go:133-136 | so does every raw id with a character that the decoder rejects |
| `Relay.CursorRoundTrip` | graphql/resolvers/query.resolvers.go:19-33 | decoding a cursor undoes encoding for every 64-bit offset |
| `Pagination.Users` | graphql/resolvers/entities_gen.go:158-213 | the page at the offset after the cursor, or at the beginning without a readable one: of each record in turn a node that decodes to its id and a cursor that decodes to its position, at most first or 20 of them, exact flags, end cursors and total count; backward arguments are refused, and the cursor of the largest offset wraps around |
| `Pagination.NextPage` | graphql/resolvers/entities_gen.go:184-206 | the cursor of each edge decodes to its absolute position, and the page after the end cursor starts where this one ends |
| `Pagination.EveryRecordOnce` | graphql/resolvers/entities_gen.go:158-213 | following end cursors with any page sizes terminates and yields every record exactly once in order, by the ids and positions that its edges decode to |
| `Pagination.WalkYields` | graphql/resolvers/entities_gen.go:158-213 | a walk yields consecutive records from where it starts and is complete exactly when its page sizes reach the end |
| `Pagination.PagesOfTable` | graphql/resolvers/entities_gen.go:158-213 | a nonempty table of n records takes ceil(n/k) pages of size k |
| `SqlBuilders.BuildBulkInsertSQL` | orm/runtime/bulk.go:15-50 | each error exactly when it is due; else placeholders are numbered in reading order and the arguments are the rows flattened |
| `SqlBuilders.BuildBulkUpdateSQL` | orm/runtime/bulk.go:60-108 | the same with the primary in front of each row's values |
| `SqlBuilders.BuildBulkDeleteSQL` | orm/runtime/bulk.go:116-134 | placeholders 1 to n for the ids in order |
| `SqlBuilders.PlaceholdersInPlace` | orm/runtime/bulk.go:30-43 | slot j of row i holds a placeholder that stands for value j of row i, and there are rows times columns arguments |
| `SqlBuilders.FlatAt` | orm/runtime/bulk.go:30-43 | position i * width + j of the flattened rows is value j of row i |
| `BulkUpdate.DataHoldsTheRows` | orm/runtime/bulk.go:83-98 | row i of the relation `data` evaluates to the primary and the values of row i |
| `BulkUpdate.BulkIsRowByRow` | orm/runtime/bulk.go:60-108 | whichever matching row the database picks, the statement does what updating row by row does, if and only if rows with the same primary agree |
| `SelectBuilder.BuildSelectSQL` | orm/runtime/query.go:69-127 | placeholders number the arguments 1, 2, ... in the order of the text, each bound to its predicate value, limit or offset; LIMIT and OFFSET are there exactly for positive numbers |
| `SelectBuilder.BuildAggregateSQL` | orm/runtime/query.go:129-164 | the same for the conditions of an aggregate |
| `EntityCache.UserClient.Create` | orm/gen/client_gen.go:65-100 | inserts the row it returns, under a new id, with the time of the call; cached users stay equal to their rows |
| `EntityCache.UserClient.BulkCreate` | orm/gen/client_gen.go:102-166 | inserts all the rows or none, returned in order, with ids and times as given or else made during the call |
| `EntityCache.UserClient.ByID` | orm/gen/client_gen.go:168-193 | returns exactly the current row or nothing, cached or not |
| `EntityCache.UserClient.Update` | orm/gen/client_gen.go:230-255 | sets updated_at of the one row to the time of the call, or fails without an effect on the table |
| `EntityCache.UserClient.BulkUpdate` | orm/gen/client_gen.go:257-315 | sets updated_at of the named rows to times during the call and returns those that exist, once each |
| `EntityCache.UserClient.Delete` | orm/gen/client_gen.go:317-329 | removes the row |
| `EntityCache.UserClient.BulkDelete` | orm/gen/client_gen.go:331-361 | removes the named rows and counts those that existed |
| `EntityCache.UserClient.Prepare` | orm/gen/client_gen.go:65-85 | which inputs are refused, and the id and times filled into an accepted one |
| `EntityCache.SetRepairs` | orm/gen/client_gen.go:96-98 | writing the current row to its key makes that entry right and leaves the others as they were |
| `EntityCache.KeysDiffer` | orm/gen/client_gen.go:45-47 | cache keys of different ids differ |
| `EntityCache.UpdatedCoherent` | orm/gen/client_gen.go:257-315 | after a bulk update only entries of the named rows can be stale |

## Left out

- SQL text, type-name tables and every kind of source emission: a statement is its structure, a
  placeholder its number. A column type is the rendered text, which also carries identity and the
  expression of a generated column.
- The naming functions (plural, snake case, default join-table name) and the SQL type of a field
  are parameters of the planner.
- Enabled means that the objects a statement needs exist and those it creates do not. Columns that a
  generated expression mentions, types that an extension provides, data that violates a new
  constraint, and the refusal to drop a column with dependents are not modelled: dropping a column
  takes its indexes, primary key and foreign keys along, and leaves the hypertable mark.
- Check constraints belong to their column; two columns whose constraint names coincide after the
  name is made safe are not modelled.
- Entity annotations, polymorphic edge targets and authorization, except the time-series mark.
- Case folding and character classes in slugs and file names are those of ASCII. Reading directories,
  a missing directory, and options of the runner are not modelled; the scripts of a run are its
  parameter, and the outcome of each statement is open.
- MigrationBatches.RollbacksExist: that there is a rollback script for each version is up to the
  directory.
- MigrationLocking.AlwaysSafe: all runs use one lock id, and migration scripts do not themselves end
  the transaction or write the tracking table. Plan, which takes the lock and changes nothing, is not
  among the runs.
- BrokerInterleaving.AlwaysSafe: a section under the write lock is one step, as no other holder of the lock can
  see its parts; the buffer size is read before the lock, as in the code.
- ReplicaConcurrency.AlwaysSafe: the interval is positive and fixed during the run, time does not go
  back, and looking at the clock and deciding is one step. A handle without a primary, the probe's SQL
  and the float conversion of the lag are not modelled.
- Failover.ObservedRow.Scan: the calls on one row come one after another.
- Pagination.Users: the table does not change while it is paged through, and it has at most 2^63 - 1
  records; the hooks that may change a record before it is returned can only fail here.
- BulkUpdate.BulkIsRowByRow: the primary column is not among the updated columns, where the database
  would refuse the statement.
- SqlBuilders.BuildBulkUpdateSQL: `returning` is a list of names that is not interpreted. The generated
  client asks for `id` and `updated_at`, which both `t` and `data` have; PostgreSQL rejects such
  unqualified names as ambiguous. EntityCache.UserClient.BulkUpdate takes them to be those of `t`.
- EntityCache.UserClient.ByID: reads are served by the primary, cache writes and row scans succeed, and
  callers do not change the entities they got; the cache may forget entries at any time, and the clock
  does not run backwards during a call.
- The request-scoped dataloader cache: it is not told of deletes, so it does not follow the table.
- Database-side effects of deletes, the streaming query builder, and the rest of the generated client.
- The initial migration's rendering, extension detection, configuration, and the generator's
  skip-if-unchanged state.
- JSON and YAML files, writing files, watch mode, command line, Docker and doctor output, OIDC, tracing
  and metrics adapters, templates and the reading of schema sources: input and output, or wrappers.
