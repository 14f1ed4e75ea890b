/** Any number of concurrent Apply and Rollback runs that share one advisory lock
    (orm/migrate/migrate.go). A run is a transaction that begins, waits for the lock, reads the
    tracking table, executes and records scripts, and commits; it may fail at any point. What it
    executes and records is invisible to the others until it commits. */
module MigrationLocking {
  import opened Results
  import opened MigrationDiscovery
  import opened MigrationRunner
  import opened MigrationBatches

  datatype Kind = ApplyRun(files: Files, batch: nat) | RollbackRun(files: Files)

  /** The uncommitted part of a transaction: scripts to execute, scripts executed, the one
      that is not yet recorded, and the changes to the tracking table. */
  datatype Work = Work(todo: Files, done: Files, unrecorded: Files, inserted: set<string>, deleted: set<string>)

  datatype Phase = Begun | Locked | Working(work: Work)

  /** `began` is the time of the transaction, which now() returns throughout. */
  datatype Run = Run(kind: Kind, began: nat, phase: Phase)

  datatype State = State(tracking: Option<Rows>, log: Files, holder: Option<nat>, runs: map<nat, Run>)

  datatype Step =
    | Begin(id: nat, kind: Kind, now: nat)
    | Lock(id: nat)
    | Read(id: nat, todo: Files)
    | Execute(id: nat)
    | Record(id: nat)
    | Commit(id: nat)
    | Abort(id: nat)

  ghost predicate Init(s: State) {
    s == State(None, [], None, map[])
  }

  /** What the run decides to execute after reading the tracking table. */
  ghost predicate Chooses(kind: Kind, rows: Rows, todo: Files) {
    match kind
    case ApplyRun(files, batch) => todo == Pending(files, rows.Keys, batch)
    case RollbackRun(files) =>
      exists v :: Latest(rows, v) && HasUp(files, v) && v in Downs(files) && todo == [Downs(files)[v]]
  }

  function Executing(w: Work): Work
    requires w.todo != []
  {
    w.(todo := w.todo[1..], done := w.done + [w.todo[0]], unrecorded := [w.todo[0]])
  }

  /** INSERT ... ON CONFLICT DO NOTHING, or DELETE. */
  function Recording(kind: Kind, rows: Rows, w: Work): Work
    requires w.unrecorded != []
  {
    var v := w.unrecorded[0].version;
    if kind.RollbackRun? then w.(unrecorded := [], deleted := w.deleted + {v})
    else if v in rows then w.(unrecorded := [])
    else
      w.(unrecorded := [], inserted := w.inserted + {v})
  }

  function Committed(rows: Rows, w: Work, now: nat): Rows {
    (rows - w.deleted) + map v | v in w.inserted :: now
  }

  ghost predicate NextStep(s: State, s': State, step: Step) {
    match step
    case Begin(id, kind, now) =>
      id !in s.runs && Discovered(kind.files) && s' == s.(runs := s.runs[id := Run(kind, now, Begun)])
    case Lock(id) =>
      && id in s.runs && s.runs[id].phase.Begun? && s.holder.None?
      && s' == s.(holder := Some(id), runs := s.runs[id := s.runs[id].(phase := Locked)])
    case Read(id, todo) =>
      && id in s.runs && s.runs[id].phase.Locked? && Chooses(s.runs[id].kind, RowsOf(s.tracking), todo)
      && s' == s.(runs := s.runs[id := s.runs[id].(phase := Working(Work(todo, [], [], {}, {})))])
    case Execute(id) =>
      && id in s.runs && s.runs[id].phase.Working? && s.runs[id].phase.work.unrecorded == []
      && s.runs[id].phase.work.todo != []
      && s' == s.(runs := s.runs[id := s.runs[id].(phase := Working(Executing(s.runs[id].phase.work)))])
    case Record(id) =>
      && id in s.runs && s.runs[id].phase.Working? && s.runs[id].phase.work.unrecorded != []
      && s' == s.(runs := s.runs[id :=
        s.runs[id].(phase := Working(Recording(s.runs[id].kind, RowsOf(s.tracking), s.runs[id].phase.work)))])
    case Commit(id) =>
      && id in s.runs && s.runs[id].phase.Working? && s.runs[id].phase.work.unrecorded == []
      && s.runs[id].phase.work.todo == []
      && s' == State(
        Some(Committed(RowsOf(s.tracking), s.runs[id].phase.work, s.runs[id].began)),
        s.log + s.runs[id].phase.work.done,
        if s.holder == Some(id) then None else s.holder,
        s.runs - {id})
    case Abort(id) =>
      id in s.runs && s' == s.(holder := if s.holder == Some(id) then None else s.holder, runs := s.runs - {id})
  }

  ghost predicate Next(s: State, s': State) {
    exists step :: NextStep(s, s', step)
  }

  ghost predicate Reaches(trace: seq<State>) {
    trace != [] && Init(trace[0]) && forall i {:trigger trace[i]} :: 0 < i < |trace| ==> Next(trace[i - 1], trace[i])
  }

  // Safety

  /** At most one run is past its lock: the holder. */
  ghost predicate Exclusive(s: State) {
    && (forall id :: id in s.runs && !s.runs[id].phase.Begun? ==> s.holder == Some(id))
    && (s.holder.Some? ==> s.holder.value in s.runs && !s.runs[s.holder.value].phase.Begun?)
  }

  /** What the run has done and has still to do is its choice from the present table. */
  ghost predicate OnTrack(kind: Kind, rows: Rows, w: Work) {
    && Chooses(kind, rows, w.done + w.todo)
    && (w.unrecorded != [] ==> w.done != [] && w.unrecorded == [w.done[|w.done| - 1]])
    && var recorded := Versions(w.done[..|w.done| - |w.unrecorded|]);
      if kind.ApplyRun? then w.inserted == recorded && w.deleted == {} else w.inserted == {} && w.deleted == recorded
  }

  ghost predicate RunsOnTrack(s: State) {
    forall id :: id in s.runs ==>
      && Discovered(s.runs[id].kind.files)
      && (s.runs[id].phase.Working? ==> OnTrack(s.runs[id].kind, RowsOf(s.tracking), s.runs[id].phase.work))
  }

  /** How often an up script of the version was executed more than a rollback script. */
  function Balance(log: Files, v: string): int {
    if log == [] then 0
    else
      var f := log[|log| - 1];
      Balance(log[..|log| - 1], v) + (if f.version != v then 0 else if f.typ.Up? then 1 else -1)
  }

  /** The tracking table is exactly the set of versions whose committed up scripts exceed the
      rollback scripts by one; all others are even. */
  ghost predicate Balanced(s: State) {
    forall v :: Balance(s.log, v) == if v in RowsOf(s.tracking) then 1 else 0
  }

  ghost predicate Safe(s: State) {
    Exclusive(s) && RunsOnTrack(s) && Balanced(s)
  }

  /** What a step does to the database: nothing, or a whole Apply or a whole Rollback. */
  ghost predicate Atomic(s: State, s': State, kind: Kind, now: nat) {
    match kind
    case ApplyRun(files, batch) =>
      var scripts := Pending(files, RowsOf(s.tracking).Keys, batch);
      s'.tracking == Some(Recorded(RowsOf(s.tracking), scripts, now)) && s'.log == s.log + scripts
    case RollbackRun(files) =>
      exists script :: IsRollback(files, RowsOf(s.tracking), RowsOf(s'.tracking), script) && s'.log == s.log + [script]
  }

  // One step

  lemma ExclusiveStep(s: State, s': State, step: Step)
    requires Exclusive(s) && NextStep(s, s', step)
    ensures Exclusive(s')
  {
    hide Chooses, Discovered, Executing, Recording, Committed, RowsOf;
  }

  lemma ReadOnTrack(kind: Kind, rows: Rows, todo: Files)
    requires Chooses(kind, rows, todo)
    ensures OnTrack(kind, rows, Work(todo, [], [], {}, {}))
  {
    hide Chooses;
    assert [] + todo == todo;
    var none: Files := [];
    assert none[..0] == [] && Versions(none) == {};
  }

  lemma ExecuteOnTrack(kind: Kind, rows: Rows, w: Work)
    requires OnTrack(kind, rows, w) && w.todo != [] && w.unrecorded == []
    ensures OnTrack(kind, rows, Executing(w))
  {
    hide Chooses, Versions;
    var w' := Executing(w);
    assert w'.done + w'.todo == w.done + w.todo;
    assert w'.done[..|w'.done| - 1] == w.done == w.done[..|w.done| - 0];
  }

  lemma VersionsSnoc(files: Files, f: FileMigration)
    ensures Versions(files + [f]) == Versions(files) + {f.version}
  {
    VersionsConcat(files, [f]);
    assert Versions([f]) == {f.version};
  }

  lemma ChosenUnapplied(files: Files, rows: Rows, batch: nat)
    ensures forall f :: f in Pending(files, rows.Keys, batch) ==> f.version !in rows
  {
    hide Ups;
  }

  lemma RecordOnTrack(kind: Kind, rows: Rows, w: Work)
    requires OnTrack(kind, rows, w) && w.unrecorded != []
    ensures OnTrack(kind, rows, Recording(kind, rows, w))
  {
    var init, last := w.done[..|w.done| - 1], w.unrecorded[0];
    assert w.done == init + [last] && w.done[..|w.done| - 0] == w.done;
    assert last in w.done + w.todo;
    if kind.ApplyRun? { ChosenUnapplied(kind.files, rows, kind.batch); }
    hide Chooses, Versions, Pending;
    VersionsSnoc(init, last);
  }

  /** Only the holder works, so a commit leaves no other run that has read the table. */
  lemma RunsOnTrackStep(s: State, s': State, step: Step)
    requires Exclusive(s) && RunsOnTrack(s) && NextStep(s, s', step)
    ensures RunsOnTrack(s')
  {
    hide Chooses, Discovered, OnTrack, Executing, Recording, Committed, RowsOf;
    match step
    case Read(id, todo) => ReadOnTrack(s.runs[id].kind, RowsOf(s.tracking), todo);
    case Execute(id) => ExecuteOnTrack(s.runs[id].kind, RowsOf(s.tracking), s.runs[id].phase.work);
    case Record(id) => RecordOnTrack(s.runs[id].kind, RowsOf(s.tracking), s.runs[id].phase.work);
    case _ =>
  }

  // A commit is a whole Apply or Rollback

  lemma RecordedLast(rows: Rows, scripts: Files, now: nat)
    requires scripts != []
    ensures var before, v := Recorded(rows, scripts[..|scripts| - 1], now), scripts[|scripts| - 1].version;
      Recorded(rows, scripts, now) == if v in before then before else before[v := now]
  {
  }

  lemma UnionMore(rows: Rows, done: set<string>, v: string, now: nat)
    requires v !in rows
    ensures var before := rows + map u | u in done :: now;
      (if v in before then before else before[v := now]) == rows + map u | u in done + {v} :: now
  {
  }

  lemma {:induction false} RecordedIsUnion(rows: Rows, scripts: Files, now: nat)
    requires forall f :: f in scripts ==> f.version !in rows
    ensures Recorded(rows, scripts, now) == rows + map v | v in Versions(scripts) :: now
  {
    if scripts == [] {
      assert Versions(scripts) == {};
    } else {
      hide *;
      var init, last := scripts[..|scripts| - 1], scripts[|scripts| - 1];
      assert scripts == init + [last];
      RecordedIsUnion(rows, init, now);
      RecordedLast(rows, scripts, now);
      VersionsSnoc(init, last);
      UnionMore(rows, Versions(init), last.version, now);
    }
  }

  lemma TakeApply(files: Files, batch: nat, rows: Rows, w: Work)
    requires OnTrack(ApplyRun(files, batch), rows, w) && w.unrecorded == [] && w.todo == []
    ensures w.done == Pending(files, rows.Keys, batch) && w.inserted == Versions(w.done) && w.deleted == {}
  {
    hide Pending, Versions;
    assert w.done + [] == w.done && w.done[..|w.done| - 0] == w.done;
  }

  lemma CommittedApply(files: Files, batch: nat, rows: Rows, w: Work, now: nat)
    requires OnTrack(ApplyRun(files, batch), rows, w) && w.unrecorded == [] && w.todo == []
    ensures w.done == Pending(files, rows.Keys, batch)
    ensures Committed(rows, w, now) == Recorded(rows, w.done, now)
  {
    hide OnTrack, Pending, Versions, Recorded;
    TakeApply(files, batch, rows, w);
    ChosenUnapplied(files, rows, batch);
    RecordedIsUnion(rows, w.done, now);
    assert rows - {} == rows;
  }

  lemma CommittedRollback(files: Files, rows: Rows, w: Work, now: nat)
    requires OnTrack(RollbackRun(files), rows, w) && w.unrecorded == [] && w.todo == []
    ensures |w.done| == 1 && IsRollback(files, rows, Committed(rows, w, now), w.done[0])
  {
    assert w.done + [] == w.done && w.done[..|w.done| - 0] == w.done;
    var v :| Latest(rows, v) && HasUp(files, v) && v in Downs(files) && w.done == [Downs(files)[v]];
    DownsAt(files);
    RollsBackVersion(files, rows, v);
    hide Latest, HasUp, Downs, IsRollback;
    assert Versions(w.done) == {v};
    assert Committed(rows, w, now) == rows - {v};
  }

  lemma CommitIsAtomic(s: State, s': State, id: nat)
    requires RunsOnTrack(s) && NextStep(s, s', Commit(id))
    ensures Atomic(s, s', s.runs[id].kind, s.runs[id].began)
  {
    hide OnTrack, Committed, Pending, Recorded, IsRollback, RowsOf, Chooses, Discovered;
    var run, rows := s.runs[id], RowsOf(s.tracking);
    var w := run.phase.work;
    match run.kind
    case ApplyRun(files, batch) => CommittedApply(files, batch, rows, w, run.began);
    case RollbackRun(files) =>
      CommittedRollback(files, rows, w, run.began);
      assert w.done == [w.done[0]];
      RowsOfSome(Committed(rows, w, run.began));
  }

  lemma RowsOfSome(rows: Rows)
    ensures RowsOf(Some(rows)) == rows
  {
  }

  // Commits keep the table in balance with the log

  lemma {:induction false} BalanceConcat(a: Files, b: Files, v: string)
    ensures Balance(a + b, v) == Balance(a, v) + Balance(b, v)
  {
    if b == [] {
      assert a + b == a;
    } else {
      assert (a + b)[..|a + b| - 1] == a + b[..|b| - 1];
      BalanceConcat(a, b[..|b| - 1], v);
    }
  }

  lemma {:induction false} BalanceOfUps(scripts: Files, v: string)
    requires DistinctVersions(scripts) && forall f :: f in scripts ==> f.typ.Up?
    ensures Balance(scripts, v) == if v in Versions(scripts) then 1 else 0
  {
    if scripts != [] {
      var init, last := scripts[..|scripts| - 1], scripts[|scripts| - 1];
      BalanceOfUps(init, v);
      assert scripts == init + [last];
      VersionsSnoc(init, last);
      assert last.version !in Versions(init);
    }
  }

  lemma {:induction false} UpsAreUp(files: Files)
    ensures forall f :: f in Ups(files) ==> f.typ.Up?
  {
    if files != [] { UpsAreUp(files[..|files| - 1]); }
  }

  lemma PendingUps(files: Files, rows: Rows, batch: nat)
    requires Discovered(files)
    ensures DistinctVersions(Pending(files, rows.Keys, batch))
    ensures forall f :: f in Pending(files, rows.Keys, batch) ==> f.typ.Up?
  {
    UpsAreUp(files);
    UpVersionsApart(files);
    hide Ups, Discovered;
    UnappliedDistinct(Ups(files), rows.Keys);
  }

  lemma ApplyKeepsBalance(files: Files, rows: Rows, batch: nat, now: nat, log: Files, v: string)
    requires Discovered(files) && Balance(log, v) == if v in rows then 1 else 0
    ensures var scripts := Pending(files, rows.Keys, batch);
      Balance(log + scripts, v) == if v in Recorded(rows, scripts, now) then 1 else 0
  {
    ChosenUnapplied(files, rows, batch);
    PendingUps(files, rows, batch);
    hide Pending, Recorded, Discovered, DistinctVersions;
    var scripts := Pending(files, rows.Keys, batch);
    BalanceConcat(log, scripts, v);
    BalanceOfUps(scripts, v);
    RecordedKeys(rows, scripts, now);
  }

  lemma RollbackKeepsBalance(files: Files, rows: Rows, rows': Rows, script: FileMigration, log: Files, v: string)
    requires IsRollback(files, rows, rows', script) && Balance(log, v) == if v in rows then 1 else 0
    ensures Balance(log + [script], v) == if v in rows' then 1 else 0
  {
    BalanceConcat(log, [script], v);
    assert [script][..0] == [];
  }

  lemma BalancedStep(s: State, s': State, step: Step)
    requires RunsOnTrack(s) && Balanced(s) && NextStep(s, s', step)
    ensures Balanced(s')
  {
    if step.Commit? {
      CommitIsAtomic(s, s', step.id);
      var run, rows := s.runs[step.id], RowsOf(s.tracking);
      hide NextStep, OnTrack, Pending, Recorded, IsRollback, Discovered, Balance;
      forall v ensures Balance(s'.log, v) == if v in RowsOf(s'.tracking) then 1 else 0 {
        match run.kind
        case ApplyRun(files, batch) => ApplyKeepsBalance(files, rows, batch, run.began, s.log, v);
        case RollbackRun(files) =>
          var script :| IsRollback(files, rows, RowsOf(s'.tracking), script) && s'.log == s.log + [script];
          RollbackKeepsBalance(files, rows, RowsOf(s'.tracking), script, s.log, v);
      }
    } else {
      hide Chooses, Discovered, Executing, Recording, Committed, Balance;
    }
  }

  // Every run

  /** In every reachable state at most one run is between its lock and its commit, and the
      tracking table agrees with the committed scripts. */
  lemma {:induction false} AlwaysSafe(trace: seq<State>, i: nat)
    requires Reaches(trace) && i < |trace|
    ensures Safe(trace[i])
  {
    hide NextStep, Safe;
    if i == 0 {
      InitSafe(trace[0]);
    } else {
      AlwaysSafe(trace, i - 1);
      assert Next(trace[i - 1], trace[i]);
      SafeStep(trace[i - 1], trace[i]);
    }
  }

  lemma InitSafe(s: State)
    requires Init(s)
    ensures Safe(s)
  {
  }

  lemma SafeStep(s: State, s': State)
    requires Safe(s) && Next(s, s')
    ensures Safe(s')
  {
    hide NextStep, Exclusive, RunsOnTrack, Balanced;
    var step :| NextStep(s, s', step);
    ExclusiveStep(s, s', step);
    RunsOnTrackStep(s, s', step);
    BalancedStep(s, s', step);
  }

  /** Each step changes the database not at all or as one whole Apply or Rollback that runs
      alone, so a failed run changes nothing. */
  lemma StepsAreAtomic(trace: seq<State>, i: nat)
    requires Reaches(trace) && 0 < i < |trace|
    ensures var s, s' := trace[i - 1], trace[i];
      || (s'.tracking == s.tracking && s'.log == s.log)
      || exists id ::
        id in s.runs && id !in s'.runs && s.holder == Some(id) && Atomic(s, s', s.runs[id].kind, s.runs[id].began)
  {
    var s, s' := trace[i - 1], trace[i];
    AlwaysSafe(trace, i - 1);
    assert Next(s, s');
    var step :| NextStep(s, s', step);
    hide Chooses, Discovered, Executing, Recording, Committed, OnTrack, Balance, Atomic;
    if step.Commit? {
      CommitIsAtomic(s, s', step.id);
    }
  }

  /** Two runs are never both between lock and commit. */
  lemma MutualExclusion(trace: seq<State>, i: nat, a: nat, b: nat)
    requires Reaches(trace) && i < |trace|
    requires a in trace[i].runs && b in trace[i].runs
    requires !trace[i].runs[a].phase.Begun? && !trace[i].runs[b].phase.Begun?
    ensures a == b
  {
    AlwaysSafe(trace, i);
  }
}
