/** Plan, Apply and Rollback (orm/migrate/migrate.go) of a single runner against the
    tracking table; MigrationLocking interleaves any number of them. */
module MigrationRunner {
  import opened Names
  import opened Results
  import opened MigrationDiscovery

  type Files = seq<FileMigration>

  /** erm_schema_migrations: the recorded versions with their applied_at. */
  type Rows = map<string, nat>

  /** What Discover returns. */
  ghost predicate Discovered(files: Files) {
    InOrder(files) && UpVersionsDistinct(files)
  }

  // What an Apply executes

  function Unapplied(ups: Files, applied: set<string>): (r: Files)
    ensures forall f :: f in r <==> f in ups && f.version !in applied
    ensures |r| <= |ups|
  {
    if ups == [] then []
    else
      var last := ups[|ups| - 1];
      Unapplied(ups[..|ups| - 1], applied) + (if last.version in applied then [] else [last])
  }

  /** Batch size 0 means no limit. */
  function Limit(ups: Files, batch: nat): Files {
    if batch > 0 && |ups| > batch then ups[..batch] else ups
  }

  function Pending(files: Files, applied: set<string>, batch: nat): Files {
    Limit(Unapplied(Ups(files), applied), batch)
  }

  /** INSERT ... ON CONFLICT DO NOTHING for each script, all with the time of the transaction. */
  function Recorded(rows: Rows, scripts: Files, now: nat): Rows {
    if scripts == [] then rows
    else
      var before := Recorded(rows, scripts[..|scripts| - 1], now);
      var v := scripts[|scripts| - 1].version;
      if v in before then before else before[v := now]
  }

  /** The recorded versions keep their times; those of the scripts that were not recorded get this one. */
  lemma {:induction false} RecordedExact(rows: Rows, scripts: Files, now: nat)
    ensures forall v :: v in Recorded(rows, scripts, now) <==> v in rows || exists f :: f in scripts && f.version == v
    ensures forall v :: v in Recorded(rows, scripts, now) ==>
      Recorded(rows, scripts, now)[v] == if v in rows then rows[v] else now
  {
    if scripts != [] {
      var init, last := scripts[..|scripts| - 1], scripts[|scripts| - 1];
      RecordedExact(rows, init, now);
      assert scripts == init + [last];
      assert forall f :: f in scripts <==> f in init || f == last;
    }
  }

  function RowsOf(tracking: Option<Rows>): Rows {
    if tracking.Some? then tracking.value else map[]
  }

  // What a Rollback executes

  /** Any of the rows with the latest applied_at may come first. */
  ghost predicate Latest(rows: Rows, v: string) {
    v in rows && forall u :: u in rows ==> rows[u] <= rows[v]
  }

  function Downs(files: Files): map<string, FileMigration> {
    if files == [] then map[]
    else
      var f := files[|files| - 1];
      if f.typ.Down? then Downs(files[..|files| - 1])[f.version := f] else Downs(files[..|files| - 1])
  }

  predicate HasUp(files: Files, v: string) {
    exists f | f in files :: f.typ.Up? && f.version == v
  }

  lemma {:induction false} DownsAt(files: Files)
    ensures forall v :: v in Downs(files) ==>
      Downs(files)[v] in files && Downs(files)[v].typ.Down? && Downs(files)[v].version == v
  {
    if files != [] {
      DownsAt(files[..|files| - 1]);
      assert files == files[..|files| - 1] + [files[|files| - 1]];
    }
  }

  /** File i is the last rollback script of the version. */
  ghost predicate LastDown(files: Files, i: nat, v: string) {
    && i < |files| && files[i].typ.Down? && files[i].version == v
    && forall j :: i < j < |files| && files[j].typ.Down? ==> files[j].version != v
  }

  /** A version has a rollback script exactly if there is a file for it; of several, the last one
      counts. */
  lemma {:induction false} DownsExact(files: Files, v: string)
    ensures v in Downs(files) <==> exists f :: f in files && f.typ.Down? && f.version == v
    ensures v in Downs(files) ==> exists i: nat :: LastDown(files, i, v) && Downs(files)[v] == files[i]
  {
    if files != [] {
      var init, last := files[..|files| - 1], files[|files| - 1];
      DownsExact(init, v);
      assert files == init + [last];
      if last.typ.Down? && last.version == v {
        assert LastDown(files, |files| - 1, v);
      } else if v in Downs(init) {
        var i: nat :| LastDown(init, i, v) && Downs(init)[v] == init[i];
        assert LastDown(files, i, v) && files[i] == init[i];
      }
    }
  }

  datatype RunError =
    | StatementFailed
    | Drift(missing: seq<string>)
    | NoAppliedMigrations
    | NoRollbackScript(version: string)

  datatype PlanResult = PlanResult(pending: Files, applied: seq<string>)

  /** Whether a statement succeeds is up to the database. */
  method Exec() returns (ok: bool) {
    ok := *;
  }

  /** `SELECT version ... ORDER BY applied_at [DESC]`: rows with the same time come in any order. */
  method SelectVersions(rows: Rows) returns (versions: seq<string>)
    ensures Distinct(versions) && forall v :: v in versions <==> v in rows
    ensures forall i, j :: 0 <= i < j < |versions| ==> rows[versions[i]] <= rows[versions[j]]
  {
    versions := [];
    var todo := rows.Keys;
    while todo != {}
      invariant todo <= rows.Keys
      invariant Distinct(versions) && forall v :: v in versions <==> v in rows && v !in todo
      invariant forall i, j :: 0 <= i < j < |versions| ==> rows[versions[i]] <= rows[versions[j]]
      invariant forall v, u :: v in versions && u in todo ==> rows[v] <= rows[u]
      decreases |todo|
    {
      Earliest(rows, todo);
      var v :| v in todo && forall u :: u in todo ==> rows[v] <= rows[u];
      versions := versions + [v];
      todo := todo - {v};
    }
  }

  lemma Earliest(rows: Rows, todo: set<string>)
    requires todo != {} && todo <= rows.Keys
    ensures exists v :: v in todo && forall u :: u in todo ==> rows[v] <= rows[u]
    decreases |todo|
  {
    var x :| x in todo;
    if todo != {x} {
      Earliest(rows, todo - {x});
      var v :| v in todo - {x} && forall u :: u in todo - {x} ==> rows[v] <= rows[u];
      if rows[x] <= rows[v] {
        assert forall u :: u in todo ==> rows[x] <= rows[u];
      } else {
        assert forall u :: u in todo ==> rows[v] <= rows[u];
      }
    } else {
      assert forall u :: u in todo ==> rows[x] <= rows[u];
    }
  }

  /** The loop that picks unapplied up scripts until the batch is full. */
  method SelectPending(files: Files, applied: set<string>, batch: nat) returns (pending: Files)
    ensures pending == Pending(files, applied, batch)
  {
    hide Ups, Unapplied;
    pending := [];
    NothingYet(files[..0], applied);
    for i := 0 to |files|
      invariant pending == Unapplied(Ups(files[..i]), applied)
      invariant batch > 0 ==> |pending| < batch
    {
      PendingStep(files, i, applied);
      if files[i].typ.Down? {
        continue;
      }
      if files[i].version in applied {
        continue;
      }
      pending := pending + [files[i]];
      if batch > 0 && |pending| == batch {
        PendingPrefix(files, i + 1, applied);
        return;
      }
    }
    assert files[..|files|] == files;
  }

  lemma NothingYet(none: Files, applied: set<string>)
    requires none == []
    ensures Unapplied(Ups(none), applied) == []
  {
  }

  lemma PendingStep(files: Files, i: nat, applied: set<string>)
    requires i < |files|
    ensures Unapplied(Ups(files[..i + 1]), applied)
      == Unapplied(Ups(files[..i]), applied)
        + (if files[i].typ.Up? && files[i].version !in applied then [files[i]] else [])
  {
    var before := Ups(files[..i]);
    UpsSnoc(files, i);
    if files[i].typ.Up? {
      UnappliedSnoc(before, files[i], applied);
    } else {
      assert before + [] == before;
    }
  }

  lemma UpsSnoc(files: Files, i: nat)
    requires i < |files|
    ensures Ups(files[..i + 1]) == Ups(files[..i]) + (if files[i].typ.Up? then [files[i]] else [])
  {
    assert files[..i + 1][..i] == files[..i];
  }

  lemma UnappliedSnoc(ups: Files, f: FileMigration, applied: set<string>)
    ensures Unapplied(ups + [f], applied) == Unapplied(ups, applied) + (if f.version in applied then [] else [f])
  {
    assert (ups + [f])[..|ups|] == ups;
  }

  /** What is picked from a prefix of the files is a prefix of what is picked from all. */
  lemma {:induction false} PendingPrefix(files: Files, n: nat, applied: set<string>)
    requires n <= |files|
    ensures Unapplied(Ups(files[..n]), applied) <= Unapplied(Ups(files), applied)
    decreases |files| - n
  {
    hide *;
    if n == |files| {
      assert files[..n] == files;
    } else {
      PendingStep(files, n, applied);
      PendingPrefix(files, n + 1, applied);
    }
  }

  /** A database with the tracking table and the scripts it has committed. */
  class TrackingDb {
    var tracking: Option<Rows>
    var log: Files

    /** Inspects without executing; the transaction is always rolled back. */
    method Plan(files: Files, batch: nat) returns (r: Result<PlanResult, RunError>)
      ensures r.Ok? ==> r.value.pending == Pending(files, RowsOf(tracking).Keys, batch)
      ensures r.Ok? ==>
        var applied, rows := r.value.applied, RowsOf(tracking);
        && Distinct(applied) && (forall v :: v in applied <==> v in rows)
        && (forall i, j :: 0 <= i < j < |applied| ==> rows[applied[i]] <= rows[applied[j]])
        && forall v :: v in rows ==> exists f :: f in files && f.typ.Up? && f.version == v
      ensures r.Err? && r.error.Drift? ==>
        && r.error.missing != []
        && forall v :: v in r.error.missing <==>
          v in RowsOf(tracking) && !exists f :: f in files && f.typ.Up? && f.version == v
      ensures r.Err? ==> r.error.Drift? || r.error.StatementFailed?
    {
      var ups := UpFiles(files);
      var locked := Exec();
      if !locked {
        return Err(StatementFailed);
      }
      if tracking.None? {
        // The query fails with "undefined table": nothing is applied yet.
        UnappliedAll(Ups(files));
        assert RowsOf(tracking).Keys == {};
        if batch > 0 && |ups| > batch {
          ups := ups[..batch];
        }
        return Ok(PlanResult(ups, []));
      }
      var read := Exec();
      if !read {
        return Err(StatementFailed);
      }
      var applied := SelectVersions(tracking.value);
      var missing: seq<string> := [];
      for i := 0 to |applied|
        invariant forall v :: v in missing <==> v in applied[..i] && !HasUp(files, v)
      {
        if !HasUp(files, applied[i]) {
          missing := missing + [applied[i]];
        }
      }
      assert applied[..|applied|] == applied;
      if |missing| > 0 {
        return Err(Drift(missing));
      }
      forall v | v in tracking.value ensures HasUp(files, v) {
        assert v in applied && v !in missing;
      }
      var pending := SelectPending(files, tracking.value.Keys, batch);
      return Ok(PlanResult(pending, applied));
    }

    /** Executes and records the pending scripts in one transaction: all or nothing. */
    method Apply(files: Files, batch: nat, now: nat) returns (r: Result<(), RunError>)
      modifies this
      ensures r.Ok? ==>
        tracking == Some(Recorded(RowsOf(old(tracking)), Pending(files, RowsOf(old(tracking)).Keys, batch), now))
      ensures r.Ok? ==> log == old(log) + Pending(files, RowsOf(old(tracking)).Keys, batch)
      ensures r.Ok? ==>
        var before, scripts := RowsOf(old(tracking)), Pending(files, RowsOf(old(tracking)).Keys, batch);
        && (forall v :: v in RowsOf(tracking) <==> v in before || exists f :: f in scripts && f.version == v)
        && forall v :: v in RowsOf(tracking) ==> RowsOf(tracking)[v] == if v in before then before[v] else now
      ensures r.Err? ==> tracking == old(tracking) && log == old(log)
    {
      var ready := Exec();  // lock, create the table if absent, read it
      if !ready {
        return Err(StatementFailed);
      }
      var rows := RowsOf(tracking);
      var toApply := SelectPending(files, rows.Keys, batch);
      for i := 0 to |toApply|
        invariant rows == Recorded(RowsOf(old(tracking)), toApply[..i], now)
        invariant tracking == old(tracking) && log == old(log)
      {
        assert toApply[..i + 1][..i] == toApply[..i];
        var executed := Exec();
        if !executed {
          return Err(StatementFailed);
        }
        var recorded := Exec();
        if !recorded {
          return Err(StatementFailed);
        }
        if toApply[i].version !in rows {
          rows := rows[toApply[i].version := now];
        }
      }
      assert toApply[..|toApply|] == toApply;
      var committed := Exec();
      if !committed {
        return Err(StatementFailed);
      }
      RecordedExact(RowsOf(old(tracking)), toApply, now);
      tracking, log := Some(rows), log + toApply;
      return Ok(());
    }

    /** Runs the rollback script of a row with the latest applied_at and removes that row. */
    method Rollback(files: Files) returns (r: Result<FileMigration, RunError>)
      modifies this
      ensures r.Ok? ==>
        IsRollback(files, RowsOf(old(tracking)), RowsOf(tracking), r.value) && log == old(log) + [r.value]
      ensures r.Err? ==> tracking == old(tracking) && log == old(log)
      ensures r.Err? && r.error.NoAppliedMigrations? ==> RowsOf(tracking) == map[]
      ensures r.Err? && r.error.Drift? ==>
        exists v ::
          r.error.missing == [v] && Latest(RowsOf(tracking), v)
            && !exists f :: f in files && f.typ.Up? && f.version == v
      ensures r.Err? && r.error.NoRollbackScript? ==>
        && Latest(RowsOf(tracking), r.error.version)
        && (exists f :: f in files && f.typ.Up? && f.version == r.error.version)
        && !exists f :: f in files && f.typ.Down? && f.version == r.error.version
    {
      var ready := Exec();
      if !ready {
        return Err(StatementFailed);
      }
      var rows := RowsOf(tracking);
      var versions := SelectVersions(rows);
      if |versions| == 0 {
        assert forall v :: v in rows ==> v in versions;
        return Err(NoAppliedMigrations);
      }
      var latest := versions[|versions| - 1];
      assert Latest(rows, latest) by {
        assert latest in versions;
        forall u | u in rows ensures rows[u] <= rows[latest] {
          assert u in versions;
        }
      }
      if !HasUp(files, latest) {
        return Err(Drift([latest]));
      }
      var downs := Downs(files);
      DownsExact(files, latest);
      if latest in downs { RollsBackVersion(files, rows, latest); }
      hide Downs, IsRollback;
      if latest !in downs {
        return Err(NoRollbackScript(latest));
      }
      var done := Exec();  // read and execute the script, delete the row, commit
      if !done {
        return Err(StatementFailed);
      }
      tracking, log := Some(rows - {latest}), log + [downs[latest]];
      return Ok(downs[latest]);
    }
  }

  method UpFiles(files: Files) returns (ups: Files)
    ensures ups == Ups(files)
  {
    ups := [];
    for i := 0 to |files|
      invariant ups == Ups(files[..i])
    {
      assert files[..i + 1][..i] == files[..i];
      if files[i].typ.Up? {
        ups := ups + [files[i]];
      }
    }
    assert files[..|files|] == files;
  }

  lemma {:induction false} UnappliedAll(ups: Files)
    ensures Unapplied(ups, {}) == ups
  {
    if ups != [] {
      var init, last := ups[..|ups| - 1], ups[|ups| - 1];
      UnappliedAll(init);
      UnappliedSnoc(init, last, {});
      hide Unapplied;
      assert ups == init + [last];
    }
  }

  /** One rollback: a row with the latest time goes, and the last rollback script of its version,
      which has an up script as well, is run. */
  ghost predicate IsRollback(files: Files, rows: Rows, rows': Rows, script: FileMigration) {
    exists v, i: nat ::
      && LastDown(files, i, v) && script == files[i] && (exists f :: f in files && f.typ.Up? && f.version == v)
      && Latest(rows, v) && rows' == rows - {v}
  }

  lemma RollsBackVersion(files: Files, rows: Rows, v: string)
    requires Latest(rows, v) && HasUp(files, v) && v in Downs(files)
    ensures IsRollback(files, rows, rows - {v}, Downs(files)[v])
  {
    DownsExact(files, v);
    hide Downs, Latest;
    var i: nat :| LastDown(files, i, v) && Downs(files)[v] == files[i];
    var f :| f in files && f.typ.Up? && f.version == v;
  }
}
