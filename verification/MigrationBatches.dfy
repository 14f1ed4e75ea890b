/** Whole histories of Apply and Rollback runs of one runner with unchanged files. */
module MigrationBatches {
  import opened Names
  import opened Results
  import opened MigrationDiscovery
  import opened MigrationRunner

  function Versions(scripts: Files): set<string> {
    set f | f in scripts :: f.version
  }

  ghost predicate DistinctVersions(scripts: Files) {
    forall i, j :: 0 <= i < j < |scripts| ==> scripts[i].version != scripts[j].version
  }

  lemma {:induction false} UnappliedTwice(ups: Files, a: set<string>, b: set<string>)
    ensures Unapplied(ups, a + b) == Unapplied(Unapplied(ups, a), b)
  {
    if ups != [] {
      var init, last := ups[..|ups| - 1], ups[|ups| - 1];
      UnappliedTwice(init, a, b);
      UnappliedSnoc(Unapplied(init, a), last, b);
      assert Unapplied(init, a) + [] == Unapplied(init, a);
    }
  }

  lemma {:induction false} UnappliedDistinct(ups: Files, applied: set<string>)
    requires DistinctVersions(ups)
    ensures DistinctVersions(Unapplied(ups, applied))
  {
    if ups != [] {
      var init, last := ups[..|ups| - 1], ups[|ups| - 1];
      UnappliedDistinct(init, applied);
      forall f | f in Unapplied(init, applied) ensures f.version != last.version {
        var i :| 0 <= i < |init| && init[i] == f;
        assert ups[i].version != ups[|ups| - 1].version;
      }
    }
  }

  /** Once the first k are applied, the rest is left. */
  lemma {:induction false} RestIsLeft(ups: Files, k: nat)
    requires DistinctVersions(ups) && k <= |ups|
    ensures Unapplied(ups, Versions(ups[..k])) == ups[k..]
  {
    if k < |ups| {
      var init, last := ups[..|ups| - 1], ups[|ups| - 1];
      RestIsLeft(init, k);
      assert init[..k] == ups[..k];
      assert last.version !in Versions(ups[..k]);
      assert ups[k..] == init[k..] + [last];
    } else {
      assert ups[..k] == ups;
      AllLeft(ups, Versions(ups));
    }
  }

  lemma {:induction false} AllLeft(ups: Files, applied: set<string>)
    requires Versions(ups) <= applied
    ensures Unapplied(ups, applied) == []
  {
    if ups != [] {
      assert ups[|ups| - 1] in ups;
      assert forall f :: f in ups[..|ups| - 1] ==> f in ups;
      assert Versions(ups[..|ups| - 1]) <= Versions(ups);
      AllLeft(ups[..|ups| - 1], applied);
    }
  }

  lemma {:induction false} RecordedKeys(rows: Rows, scripts: Files, now: nat)
    ensures Recorded(rows, scripts, now).Keys == rows.Keys + Versions(scripts)
  {
    if scripts != [] {
      var init := scripts[..|scripts| - 1];
      RecordedKeys(rows, init, now);
      assert scripts == init + [scripts[|scripts| - 1]];
      assert Versions(scripts) == Versions(init) + {scripts[|scripts| - 1].version};
    }
  }

  lemma UpVersionsApart(files: Files)
    requires Discovered(files)
    ensures DistinctVersions(Ups(files))
  {
    UpsInOrder(files);
    forall i, j | 0 <= i < j < |Ups(files)| ensures Ups(files)[i].version != Ups(files)[j].version {
      LessTotal(Ups(files)[i].version, Ups(files)[j].version);
    }
  }

  // Repeated Apply runs

  datatype History = History(rows: Rows, log: Files)

  /** One successful Apply of `batch` at each of the times. */
  function AfterRuns(files: Files, rows: Rows, batch: nat, times: seq<nat>): History {
    if times == [] then History(rows, [])
    else
      var before := AfterRuns(files, rows, batch, times[..|times| - 1]);
      var scripts := Pending(files, before.rows.Keys, batch);
      History(Recorded(before.rows, scripts, times[|times| - 1]), before.log + scripts)
  }

  function Min(a: nat, b: nat): nat { if a <= b then a else b }

  /** Of what one unbatched Apply would execute, the first `done` scripts are executed in
      the same order, and exactly the rest is pending. */
  ghost predicate Executed(files: Files, rows: Rows, h: History, done: nat) {
    var all := Pending(files, rows.Keys, 0);
    && done <= |all|
    && h.log == all[..done]
    && h.rows.Keys == rows.Keys + Versions(all[..done])
    && Unapplied(Ups(files), h.rows.Keys) == all[done..]
  }

  lemma StartExecuted(files: Files, rows: Rows)
    ensures Executed(files, rows, History(rows, []), 0)
  {
    var all := Pending(files, rows.Keys, 0);
    assert all[..0] == [] && all[0..] == all && Versions([]) == {};
  }

  lemma VersionsConcat(a: Files, b: Files)
    ensures Versions(a + b) == Versions(a) + Versions(b)
  {
  }

  lemma PendingDistinct(files: Files, applied: set<string>)
    requires Discovered(files)
    ensures DistinctVersions(Pending(files, applied, 0))
  {
    UpVersionsApart(files);
    UnappliedDistinct(Ups(files), applied);
  }

  /** With all[done..] unapplied, the next run takes a batch from its front. */
  lemma NextBatch(files: Files, applied: set<string>, batch: nat, all: Files, done: nat)
    requires batch > 0 && done <= |all| && Unapplied(Ups(files), applied) == all[done..]
    ensures Pending(files, applied, batch) == all[done..Min(done + batch, |all|)]
  {
    hide Unapplied, Ups;
  }

  /** After executing up to `next`, the rest is unapplied. */
  lemma RestUnapplied(files: Files, rows: Rows, all: Files, next: nat)
    requires Discovered(files) && all == Pending(files, rows.Keys, 0) && next <= |all|
    ensures Unapplied(Ups(files), rows.Keys + Versions(all[..next])) == all[next..]
  {
    PendingDistinct(files, rows.Keys);
    hide Unapplied, Ups, Versions, DistinctVersions, Discovered;
    RestIsLeft(all, next);
    UnappliedTwice(Ups(files), rows.Keys, Versions(all[..next]));
  }

  lemma ExecuteMore(files: Files, rows: Rows, h: History, done: nat, batch: nat, now: nat)
    requires Discovered(files) && batch > 0 && Executed(files, rows, h, done)
    ensures var scripts := Pending(files, h.rows.Keys, batch);
      Executed(files, rows, History(Recorded(h.rows, scripts, now), h.log + scripts),
        Min(done + batch, |Pending(files, rows.Keys, 0)|))
  {
    hide Unapplied, Ups, Pending, Versions, Recorded, Discovered;
    var all := Pending(files, rows.Keys, 0);
    var next := Min(done + batch, |all|);
    var scripts := all[done..next];
    NextBatch(files, h.rows.Keys, batch, all, done);
    RecordedKeys(h.rows, scripts, now);
    assert all[..next] == all[..done] + scripts;
    VersionsConcat(all[..done], scripts);
    RestUnapplied(files, rows, all, next);
    assert rows.Keys + Versions(all[..done]) + Versions(scripts) == rows.Keys + Versions(all[..next]);
  }

  lemma AfterRun(files: Files, rows: Rows, batch: nat, times: seq<nat>, now: nat)
    ensures var before := AfterRuns(files, rows, batch, times);
      var scripts := Pending(files, before.rows.Keys, batch);
      AfterRuns(files, rows, batch, times + [now]) == History(Recorded(before.rows, scripts, now), before.log + scripts)
  {
    hide Pending, Recorded;
    assert (times + [now])[..|times|] == times;
  }

  lemma MinSteps(k: nat, batch: nat, n: nat)
    requires k > 0
    ensures Min(Min((k - 1) * batch, n) + batch, n) == Min(k * batch, n)
  {
    assert k * batch == (k - 1) * batch + batch;
  }

  /** After k runs, the first k * batch scripts are executed, or all if there are fewer. */
  lemma {:induction false} RunsExecuteInOrder(files: Files, rows: Rows, batch: nat, times: seq<nat>)
    requires Discovered(files) && batch > 0
    ensures Executed(files, rows, AfterRuns(files, rows, batch, times),
      Min(|times| * batch, |Pending(files, rows.Keys, 0)|))
  {
    hide *;
    if times == [] {
      NoRuns(files, rows, batch);
      StartExecuted(files, rows);
    } else {
      var init, now := times[..|times| - 1], times[|times| - 1];
      assert times == init + [now];
      var n := |Pending(files, rows.Keys, 0)|;
      MinSteps(|times|, batch, n);
      RunsExecuteInOrder(files, rows, batch, init);
      AfterRun(files, rows, batch, init, now);
      ExecuteMore(files, rows, AfterRuns(files, rows, batch, init), Min(|init| * batch, n), batch, now);
    }
  }

  lemma NoRuns(files: Files, rows: Rows, batch: nat)
    ensures AfterRuns(files, rows, batch, []) == History(rows, [])
    ensures Min(0 * batch, |Pending(files, rows.Keys, 0)|) == 0
  {
  }

  /** ceil(n / batch) runs execute everything, and no smaller number does. */
  lemma BatchesReachTheEnd(files: Files, rows: Rows, batch: nat, times: seq<nat>)
    requires Discovered(files) && batch > 0
    ensures var all := Pending(files, rows.Keys, 0);
      var h := AfterRuns(files, rows, batch, times);
      && (Pending(files, h.rows.Keys, batch) == [] <==> |times| >= (|all| + batch - 1) / batch)
      && (Pending(files, h.rows.Keys, batch) == [] ==> h.log == all)
  {
    hide *;
    var n := |Pending(files, rows.Keys, 0)|;
    RunsExecuteInOrder(files, rows, batch, times);
    CeilBound(n, batch, |times|);
    MinIsAll(|times| * batch, n);
    NothingLeft(files, rows, AfterRuns(files, rows, batch, times), Min(|times| * batch, n), batch);
  }

  lemma MinIsAll(k: nat, n: nat)
    ensures Min(k, n) == n <==> k >= n
  {
  }

  lemma NothingLeft(files: Files, rows: Rows, h: History, done: nat, batch: nat)
    requires Executed(files, rows, h, done) && batch > 0
    ensures Pending(files, h.rows.Keys, batch) == [] <==> done == |Pending(files, rows.Keys, 0)|
    ensures Pending(files, h.rows.Keys, batch) == [] ==> h.log == Pending(files, rows.Keys, 0)
  {
    var all := Pending(files, rows.Keys, 0);
    assert |all[done..]| == |all| - done;
    if done == |all| { assert all[..done] == all; }
  }

  lemma CeilBound(n: nat, b: nat, k: nat)
    requires b > 0
    ensures k * b >= n <==> k >= (n + b - 1) / b
  {
    var q, r := (n + b - 1) / b, (n + b - 1) % b;
    assert q * b + r == n + b - 1 && 0 <= r < b;
    if k >= q {
      assert k * b >= q * b;
    } else {
      assert k * b <= (q - 1) * b;
      assert (q - 1) * b == q * b - b;
    }
  }

  // Rolling back

  /** A rollback can remove no other row. */
  ghost predicate Forced(rows: Rows, v: string) {
    forall u :: Latest(rows, u) ==> u == v
  }

  ghost predicate AllBefore(rows: Rows, now: nat) {
    forall u :: u in rows ==> rows[u] < now
  }

  /** The row that a rollback removes is forced exactly when it is strictly later than all
      others. */
  lemma RollbackIsForced(rows: Rows, v: string)
    requires v in rows
    ensures Forced(rows, v) <==> forall u :: u in rows && u != v ==> rows[u] < rows[v]
  {
    if forall u :: Latest(rows, u) ==> u == v {
      var w := SomeLatest(rows, rows.Keys);
      assert Latest(rows, w);
      forall u | u in rows && u != v ensures rows[u] < rows[v] {
        if rows[u] == rows[v] { assert Latest(rows, u); }
      }
    } else {
      var u :| Latest(rows, u) && u != v;
      assert rows[u] >= rows[v];
    }
  }

  lemma SomeLatest(rows: Rows, s: set<string>) returns (w: string)
    requires s != {} && s <= rows.Keys
    ensures w in s && forall u :: u in s ==> rows[u] <= rows[w]
    decreases |s|
  {
    w :| w in s;
    if s != {w} {
      var x := SomeLatest(rows, s - {w});
      w := if rows[w] >= rows[x] then w else x;
    }
  }

  /** `ran` are the scripts of a sequence of rollbacks from `rows` to `rows'`. */
  ghost predicate RollsBack(files: Files, rows: Rows, ran: Files, rows': Rows) {
    if ran == [] then rows' == rows
    else exists mid :: IsRollback(files, rows, mid, ran[0]) && RollsBack(files, mid, ran[1..], rows')
  }

  ghost predicate LaterThanAll(rows: Rows, times: seq<nat>) {
    && (forall v, i :: v in rows && 0 <= i < |times| ==> rows[v] < times[i])
    && (forall i, j :: 0 <= i < j < |times| ==> times[i] < times[j])
  }

  /** One more single-script run: a new row with the given time. */
  lemma OneMore(files: Files, rows: Rows, h: History, done: nat, now: nat)
    requires Executed(files, rows, h, done) && done < |Pending(files, rows.Keys, 0)|
    ensures var f := Pending(files, rows.Keys, 0)[done];
      && Pending(files, h.rows.Keys, 1) == [f] && f.version !in h.rows
      && Recorded(h.rows, [f], now) == h.rows[f.version := now]
  {
    hide Unapplied, Ups, Pending, Versions, Recorded;
    var all := Pending(files, rows.Keys, 0);
    NextBatch(files, h.rows.Keys, 1, all, done);
    assert all[done..done + 1] == [all[done]];
    var rest := Unapplied(Ups(files), h.rows.Keys);
    assert rest[0] == all[done] && rest[0] in rest;
    RecordOne(h.rows, all[done], now);
  }

  lemma RecordOne(rows: Rows, f: FileMigration, now: nat)
    requires f.version !in rows
    ensures Recorded(rows, [f], now) == rows[f.version := now]
  {
    assert [f][..0] == [];
  }

  /** The last of k single-script runs adds one row. */
  lemma LastRow(files: Files, rows: Rows, times: seq<nat>)
    requires Discovered(files) && times != [] && |times| <= |Pending(files, rows.Keys, 0)|
    ensures var f, k := Pending(files, rows.Keys, 0)[|times| - 1], |times|;
      var before := AfterRuns(files, rows, 1, times[..k - 1]).rows;
      f.version !in before && AfterRuns(files, rows, 1, times).rows == before[f.version := times[k - 1]]
  {
    hide *;
    var k := |times|;
    var init := times[..k - 1];
    assert times == init + [times[k - 1]];
    RunsExecuteInOrder(files, rows, 1, init);
    MinOfFewer(k - 1, |Pending(files, rows.Keys, 0)|);
    OneMore(files, rows, AfterRuns(files, rows, 1, init), k - 1, times[k - 1]);
    AfterRun(files, rows, 1, init, times[k - 1]);
  }

  lemma MinOfFewer(k: nat, n: nat)
    requires k <= n
    ensures Min(k * 1, n) == k
  {
  }

  /** The rows after one Apply: the old ones, and one with the same new time for each script. */
  lemma RowsAfterApply(files: Files, rows: Rows, batch: nat, now: nat)
    requires Discovered(files)
    ensures var s := Pending(files, rows.Keys, batch);
      var after := Recorded(rows, s, now);
      && DistinctVersions(s)
      && after.Keys == rows.Keys + Versions(s)
      && (forall f :: f in s ==> f.version !in rows)
      && (forall v :: v in after ==> after[v] == if v in rows then rows[v] else now)
  {
    var s := Pending(files, rows.Keys, batch);
    RecordedKeys(rows, s, now);
    RecordedExact(rows, s, now);
    UpVersionsApart(files);
    hide Ups, Discovered, Recorded, Versions;
    UnappliedDistinct(Ups(files), rows.Keys);
  }

  /** After an Apply that executed scripts, a rollback is bound to take back the last of them
      exactly when it was the only one and its transaction began after all recorded ones. */
  lemma RollbackTakesLastScript(files: Files, rows: Rows, batch: nat, now: nat)
    requires Discovered(files) && Pending(files, rows.Keys, batch) != []
    ensures var s := Pending(files, rows.Keys, batch);
      Forced(Recorded(rows, s, now), s[|s| - 1].version) <==> |s| == 1 && AllBefore(rows, now)
  {
    var s := Pending(files, rows.Keys, batch);
    var v, after := s[|s| - 1].version, Recorded(rows, s, now);
    RowsAfterApply(files, rows, batch, now);
    assert s[|s| - 1] in s && v in after;
    RollbackIsForced(after, v);
    hide Recorded, Pending, Latest, Discovered;
    assert |s| > 1 ==> s[0] in s && s[0].version != v && s[0].version in after && after[s[0].version] == after[v];
    if forall u :: u in after && u != v ==> after[u] < after[v] {
      forall u | u in rows ensures rows[u] < now {
        assert u in after && u != v;
      }
    } else if |s| == 1 {
      assert s == [s[0]] && Versions(s) == {v};
      var u :| u in after && u != v && after[u] >= after[v];
      assert u in rows;
    }
  }

  /** The same after any number of runs of any batch size, of the last run. */
  lemma RollbackTakesLastRun(files: Files, rows: Rows, batch: nat, times: seq<nat>)
    requires Discovered(files) && times != []
    requires Pending(files, AfterRuns(files, rows, batch, times[..|times| - 1]).rows.Keys, batch) != []
    ensures var before := AfterRuns(files, rows, batch, times[..|times| - 1]).rows;
      var s := Pending(files, before.Keys, batch);
      Forced(AfterRuns(files, rows, batch, times).rows, s[|s| - 1].version) <==>
        |s| == 1 && AllBefore(before, times[|times| - 1])
  {
    hide *;
    var init, now := times[..|times| - 1], times[|times| - 1];
    assert times == init + [now];
    AfterRun(files, rows, batch, init, now);
    RollbackTakesLastScript(files, AfterRuns(files, rows, batch, init).rows, batch, now);
  }

  /** An unbatched Apply of two or more scripts on an empty table: all its rows tie, so a rollback
      may take back another script than the last. */
  lemma UnbatchedRowsTie(files: Files, now: nat)
    requires Discovered(files) && |Pending(files, {}, 0)| >= 2
    ensures var s := Pending(files, {}, 0);
      !Forced(Recorded(map[], s, now), s[|s| - 1].version)
  {
    var none: Rows := map[];
    assert none.Keys == {};
    hide Recorded, Pending, Latest, Discovered;
    RollbackTakesLastScript(files, none, 0, now);
  }

  /** A run whose transaction began before that of the run before it, because it waited longer for
      the lock, is not the one that a rollback takes back. */
  lemma LongerWaitIsNotTakenBack(files: Files)
    requires Discovered(files) && |Pending(files, {}, 0)| >= 2
    ensures !Forced(AfterRuns(files, map[], 1, [1, 0]).rows, Pending(files, {}, 0)[1].version)
  {
    var none: Rows := map[];
    assert none.Keys == {};
    assert [1, 0][..1] == [1] && [1][..0] == [];
    hide AfterRuns, Pending, Discovered, Latest;
    LastRow(files, none, [1]);
    LastRow(files, none, [1, 0]);
    var before, after := AfterRuns(files, none, 1, [1]).rows, AfterRuns(files, none, 1, [1, 0]).rows;
    var first, second := Pending(files, {}, 0)[0].version, Pending(files, {}, 0)[1].version;
    assert first in before && before[first] == 1 && after == before[second := 0];
    RollbackIsForced(after, second);
    assert first in after && first != second && after[first] >= after[second];
  }

  /** If the times ascend, the new row is strictly later than the others. */
  lemma LastRun(files: Files, rows: Rows, times: seq<nat>)
    requires Discovered(files) && times != [] && |times| <= |Pending(files, rows.Keys, 0)| && LaterThanAll(rows, times)
    ensures var f, k := Pending(files, rows.Keys, 0)[|times| - 1], |times|;
      var before := AfterRuns(files, rows, 1, times[..k - 1]).rows;
      && f.version !in before
      && AfterRuns(files, rows, 1, times).rows == before[f.version := times[k - 1]]
      && forall v :: v in before ==> before[v] < times[k - 1]
  {
    hide AfterRuns, Pending, Discovered;
    LastRow(files, rows, times);
    EarlierRows(files, rows, times[..|times| - 1], times[|times| - 1]);
  }

  lemma {:induction false} EarlierRows(files: Files, rows: Rows, times: seq<nat>, now: nat)
    requires (forall v :: v in rows ==> rows[v] < now) && forall i :: 0 <= i < |times| ==> times[i] < now
    ensures forall v :: v in AfterRuns(files, rows, 1, times).rows ==> AfterRuns(files, rows, 1, times).rows[v] < now
  {
    if times != [] {
      var init := times[..|times| - 1];
      EarlierRows(files, rows, init, now);
      var before := AfterRuns(files, rows, 1, init).rows;
      RecordedExact(before, Pending(files, before.Keys, 1), times[|times| - 1]);
    }
  }

  lemma FirstRollback(files: Files, rows: Rows, ran: Files, rows': Rows) returns (mid: Rows)
    requires ran != [] && RollsBack(files, rows, ran, rows')
    ensures IsRollback(files, rows, mid, ran[0]) && RollsBack(files, mid, ran[1..], rows')
  {
    hide IsRollback;
    mid :| IsRollback(files, rows, mid, ran[0]) && RollsBack(files, mid, ran[1..], rows');
  }

  /** A rollback right after the last of k single-script runs takes that run back. */
  lemma LastRunUndone(files: Files, rows: Rows, times: seq<nat>, mid: Rows, down: FileMigration)
    requires Discovered(files) && times != [] && |times| <= |Pending(files, rows.Keys, 0)| && LaterThanAll(rows, times)
    requires IsRollback(files, AfterRuns(files, rows, 1, times).rows, mid, down)
    ensures mid == AfterRuns(files, rows, 1, times[..|times| - 1]).rows
    ensures Undoes(files, down, Pending(files, rows.Keys, 0)[|times| - 1])
  {
    hide Pending, IsRollback, Undoes, Recorded, Discovered, AfterRuns, LaterThanAll;
    var k := |times|;
    LastRun(files, rows, times);
    UndoLatest(files, AfterRuns(files, rows, 1, times[..k - 1]).rows, AfterRuns(files, rows, 1, times).rows, mid,
      Pending(files, rows.Keys, 0)[k - 1], times[k - 1], down);
  }

  /** k single-script runs at increasing times, then k rollbacks: the matching rollback
      scripts in reverse order, and the tracking table is what it was. */
  lemma {:induction false} RollbacksReverseApplies(files: Files, rows: Rows, times: seq<nat>, ran: Files, rows': Rows)
    requires Discovered(files) && |times| <= |Pending(files, rows.Keys, 0)| && LaterThanAll(rows, times)
    requires |ran| == |times| && RollsBack(files, AfterRuns(files, rows, 1, times).rows, ran, rows')
    ensures rows' == rows
    ensures forall i :: 0 <= i < |ran| ==> Undoes(files, ran[i], Pending(files, rows.Keys, 0)[|ran| - 1 - i])
    decreases |times|
  {
    hide *;
    if times == [] {
      NoRuns(files, rows, 1);
      NothingBack(files, rows, ran, rows');
    } else {
      var init := times[..|times| - 1];
      EarlierTimes(rows, times);
      var mid := FirstRollback(files, AfterRuns(files, rows, 1, times).rows, ran, rows');
      LastRunUndone(files, rows, times, mid, ran[0]);
      RollbacksReverseApplies(files, rows, init, ran[1..], rows');
    }
  }

  lemma NothingBack(files: Files, rows: Rows, ran: Files, rows': Rows)
    requires ran == [] && RollsBack(files, rows, ran, rows')
    ensures rows' == rows
  {
  }

  lemma EarlierTimes(rows: Rows, times: seq<nat>)
    requires times != [] && LaterThanAll(rows, times)
    ensures LaterThanAll(rows, times[..|times| - 1])
  {
  }

  /** `down` is the last rollback script with the version of the up script `up`. */
  ghost predicate Undoes(files: Files, down: FileMigration, up: FileMigration) {
    exists i: nat :: LastDown(files, i, up.version) && down == files[i]
  }

  lemma UndoLatest(files: Files, before: Rows, now: Rows, mid: Rows, up: FileMigration, time: nat, down: FileMigration)
    requires up.version !in before && now == before[up.version := time] && forall v :: v in before ==> before[v] < time
    requires IsRollback(files, now, mid, down)
    ensures mid == before && Undoes(files, down, up)
  {
    var v, i: nat :| LastDown(files, i, v) && down == files[i] && Latest(now, v) && mid == now - {v};
    assert up.version in now && now[up.version] <= now[v];
    assert v == up.version;
    assert now - {v} == before;
  }

  // What is pending

  ghost predicate VersionsAscend(s: Files) {
    forall i, j :: 0 <= i < j < |s| ==> Lexicographic(s[i].version, s[j].version)
  }

  lemma {:induction false} UnappliedInOrder(ups: Files, applied: set<string>)
    requires VersionsAscend(ups)
    ensures VersionsAscend(Unapplied(ups, applied))
  {
    hide Lexicographic;
    if ups != [] {
      var init, last := ups[..|ups| - 1], ups[|ups| - 1];
      assert forall i :: 0 <= i < |init| ==> init[i] == ups[i];
      UnappliedInOrder(init, applied);
      forall f | f in Unapplied(init, applied) ensures Lexicographic(f.version, last.version) {
        var i :| 0 <= i < |init| && init[i] == f;
        assert Lexicographic(ups[i].version, ups[|ups| - 1].version);
      }
      var r := Unapplied(init, applied);
      assert forall i :: 0 <= i < |r| ==> r[i] in r;
      assert Unapplied(ups, applied) == if last.version in applied then r else r + [last];
    }
  }

  /** The first scripts of a list, or all if there is no batch size. */
  lemma LimitExact(all: Files, batch: nat)
    requires VersionsAscend(all)
    ensures var s := Limit(all, batch);
      && (forall f :: f in s ==> f in all) && VersionsAscend(s) && (batch > 0 ==> |s| <= batch)
      && forall f :: f in all && f !in s ==>
        batch > 0 && |s| == batch && forall g :: g in s ==> Lexicographic(g.version, f.version)
  {
    hide Lexicographic;
    var s := Limit(all, batch);
    forall f | f in all && f !in s
      ensures batch > 0 && |s| == batch && forall g :: g in s ==> Lexicographic(g.version, f.version)
    {
      var j :| 0 <= j < |all| && all[j] == f;
      assert forall k :: 0 <= k < |s| ==> s[k] == all[k];
      assert j >= |s|;
      forall g | g in s ensures Lexicographic(g.version, f.version) {
        var i :| 0 <= i < |s| && s[i] == g;
        assert all[i] == g;
      }
    }
  }

  /** The pending scripts are up scripts that are not applied, in ascending order of their versions;
      all of them, or if there is a batch size and more of them, that many of the first. */
  lemma PendingExact(files: Files, applied: set<string>, batch: nat)
    requires Discovered(files)
    ensures var s := Pending(files, applied, batch);
      && (forall f :: f in s ==> f in files && f.typ.Up? && f.version !in applied)
      && (forall i, j :: 0 <= i < j < |s| ==> Lexicographic(s[i].version, s[j].version))
      && (batch > 0 ==> |s| <= batch)
      && forall f :: f in files && f.typ.Up? && f.version !in applied && f !in s ==>
        batch > 0 && |s| == batch && forall g :: g in s ==> Lexicographic(g.version, f.version)
  {
    UpsAscend(files);
    UnappliedInOrder(Ups(files), applied);
    var all := Unapplied(Ups(files), applied);
    assert forall f :: f in all <==> f in files && f.typ.Up? && f.version !in applied;
    hide Unapplied, Ups, Lexicographic, Discovered, Limit;
    LimitExact(all, batch);
  }

  // There are rollbacks

  /** Every version that the runs apply has a rollback script. */
  ghost predicate HaveDowns(files: Files, scripts: Files) {
    forall up :: up in scripts ==> exists f :: f in files && f.typ.Down? && f.version == up.version
  }

  lemma LatestUndone(files: Files, rows: Rows, times: seq<nat>) returns (down: FileMigration)
    requires Discovered(files) && times != [] && |times| <= |Pending(files, rows.Keys, 0)| && LaterThanAll(rows, times)
    requires HaveDowns(files, Pending(files, rows.Keys, 0)[..|times|])
    ensures IsRollback(files, AfterRuns(files, rows, 1, times).rows,
      AfterRuns(files, rows, 1, times[..|times| - 1]).rows, down)
  {
    hide *;
    var up := Pending(files, rows.Keys, 0)[|times| - 1];
    var before, after := AfterRuns(files, rows, 1, times[..|times| - 1]).rows, AfterRuns(files, rows, 1, times).rows;
    LastRun(files, rows, times);
    FromUps(files, rows, up);
    assert Pending(files, rows.Keys, 0)[..|times|][|times| - 1] == up;
    DownFor(files, Pending(files, rows.Keys, 0)[..|times|], up);
    NewIsLatest(before, after, up.version, times[|times| - 1]);
    RollsBackVersion(files, after, up.version);
    down := Downs(files)[up.version];
  }

  lemma DownFor(files: Files, scripts: Files, up: FileMigration)
    requires HaveDowns(files, scripts) && up in scripts && up in files && up.typ.Up?
    ensures up.version in Downs(files) && HasUp(files, up.version)
  {
    DownsExact(files, up.version);
    hide Downs;
  }

  lemma NewIsLatest(before: Rows, after: Rows, v: string, time: nat)
    requires v !in before && after == before[v := time] && forall u :: u in before ==> before[u] < time
    ensures Latest(after, v) && after - {v} == before
  {
  }

  lemma FromUps(files: Files, rows: Rows, f: FileMigration)
    requires f in Pending(files, rows.Keys, 0)
    ensures f in files && f.typ.Up?
  {
  }

  lemma RollBackOne(files: Files, rows: Rows, mid: Rows, down: FileMigration, ran: Files, rows': Rows)
    requires IsRollback(files, rows, mid, down) && RollsBack(files, mid, ran, rows')
    ensures RollsBack(files, rows, [down] + ran, rows')
  {
    hide IsRollback;
    assert ([down] + ran)[1..] == ran;
  }

  /** After k single-script runs at increasing times, whose versions all have a rollback script, k
      rollbacks are possible; RollbacksReverseApplies says what they do. */
  lemma {:induction false} RollbacksExist(files: Files, rows: Rows, times: seq<nat>) returns (ran: Files)
    requires Discovered(files) && |times| <= |Pending(files, rows.Keys, 0)| && LaterThanAll(rows, times)
    requires HaveDowns(files, Pending(files, rows.Keys, 0)[..|times|])
    ensures |ran| == |times| && RollsBack(files, AfterRuns(files, rows, 1, times).rows, ran, rows)
    decreases |times|
  {
    hide *;
    if times == [] {
      NoRuns(files, rows, 1);
      ran := [];
      NoneBack(files, rows);
    } else {
      var init := times[..|times| - 1];
      var down := LatestUndone(files, rows, times);
      EarlierTimes(rows, times);
      FewerDowns(files, Pending(files, rows.Keys, 0), |times| - 1);
      var rest := RollbacksExist(files, rows, init);
      RollBackOne(files, AfterRuns(files, rows, 1, times).rows, AfterRuns(files, rows, 1, init).rows, down, rest, rows);
      ran := [down] + rest;
    }
  }

  lemma FewerDowns(files: Files, scripts: Files, k: nat)
    requires k + 1 <= |scripts| && HaveDowns(files, scripts[..k + 1])
    ensures HaveDowns(files, scripts[..k])
  {
    forall up | up in scripts[..k] ensures up in scripts[..k + 1] {
      var i :| 0 <= i < k && scripts[..k][i] == up;
      assert scripts[..k + 1][i] == up;
    }
  }

  lemma NoneBack(files: Files, rows: Rows)
    ensures RollsBack(files, rows, [], rows)
  {
  }
}
