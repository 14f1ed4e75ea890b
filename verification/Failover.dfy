/** Fallback from a replica to the primary, and the observations that surround each query
    (orm/pg/driver.go). What the databases answer is a parameter of each call. */
module Failover {
  import opened Results

  datatype Pool = Replica | Primary

  datatype Outcome = Success | Failure(pool: Pool) | PrimaryUnavailable

  /** An observation that was ended, and the outcome it was ended with. */
  datatype Ending = Ending(observation: nat, outcome: Outcome)

  /** How often the observation was ended. */
  function Endings(ended: seq<Ending>, observation: nat): nat {
    if ended == [] then 0
    else
      Endings(ended[..|ended| - 1], observation) + (if ended[|ended| - 1].observation == observation then 1 else 0)
  }

  /** Every observation started was ended exactly once. */
  ghost predicate EndedOnce(started: nat, ended: seq<Ending>) {
    forall o: nat :: Endings(ended, o) == if o < started then 1 else 0
  }

  class Observer {
    var started: nat
    var ended: seq<Ending>

    constructor ()
      ensures started == 0 && ended == []
    {
      started, ended := 0, [];
    }

    method Observe() returns (observation: nat)
      modifies this`started
      ensures observation == old(started) && started == observation + 1
    {
      observation, started := started, started + 1;
    }

    /** Ending an empty observation has no effect. */
    method End(observation: Option<nat>, outcome: Outcome)
      modifies this`ended
      ensures ended == EndOf(old(ended), observation, outcome)
    {
      if observation.Some? {
        ended := ended + [Ending(observation.value, outcome)];
      }
    }
  }

  function EndOf(ended: seq<Ending>, observation: Option<nat>, outcome: Outcome): seq<Ending> {
    if observation.Some? then ended + [Ending(observation.value, outcome)] else ended
  }

  /** What the databases answer to a query or a scan: of the row at hand, whether there is a
      primary to fall back to, and of the primary. */
  datatype Answers = Answers(first: bool, writer: bool, second: bool)

  // Queries

  /** The pool of the answer is used after a failure only from a replica, only if allowed, and
      each observation is ended once with the outcome of its own query. */
  method QueryWithOperation(observer: Observer, usedReplica: bool, allowFallback: bool, answers: Answers)
    returns (outcome: Outcome, primaryRetries: nat)
    modifies observer
    ensures var n, retried := old(observer.started), usedReplica && allowFallback && !answers.first;
      && observer.started == (if retried then n + 2 else n + 1)
      && primaryRetries == (if retried && answers.writer then 1 else 0)
      && outcome
        == (if answers.first then Success else if !retried then Failure(if usedReplica then Replica else Primary)
        else if !answers.writer then PrimaryUnavailable
        else if answers.second then Success else
          Failure(Primary))
      && observer.ended == old(observer.ended)
        + (if retried then [Ending(n, Failure(Replica)), Ending(n + 1, outcome)] else [Ending(n, outcome)])
    ensures forall o: nat :: old(observer.started) <= o < observer.started ==>
      Endings(observer.ended, o) == Endings(old(observer.ended), o) + 1
  {
    primaryRetries := 0;
    ghost var before := observer.ended;
    var observation := observer.Observe();
    outcome := if answers.first then Success else
      Failure(if usedReplica then Replica else Primary);
    observer.End(Some(observation), outcome);
    EndingsMore(before, Ending(observation, outcome));
    if outcome.Success? || !usedReplica || !allowFallback {
      return;
    }
    ghost var between := observer.ended;
    var retry := observer.Observe();
    if !answers.writer {
      outcome := PrimaryUnavailable;
      observer.End(Some(retry), outcome);
      EndingsMore(between, Ending(retry, outcome));
      return;
    }
    primaryRetries := 1;
    outcome := if answers.second then Success else
      Failure(Primary);
    observer.End(Some(retry), outcome);
    EndingsMore(between, Ending(retry, outcome));
  }

  lemma EndingsMore(ended: seq<Ending>, e: Ending)
    ensures forall o :: Endings(ended + [e], o) == Endings(ended, o) + (if o == e.observation then 1 else 0)
  {
    assert (ended + [e])[..|ended|] == ended;
  }

  // Rows

  /** A row under observation. `once` and `fallbackOnce` say whether the guards have fired. */
  datatype RowState = RowState(
    row: Pool, observation: Option<nat>, held: bool, once: bool, fallbackOnce: bool,
    started: nat, ended: seq<Ending>, primaryRetries: nat)

  /** A fresh row of queryRowWithOperation; a fallback is held only for an allowed replica read. */
  function Opened(usedReplica: bool, allowFallback: bool): RowState {
    RowState(if usedReplica then Replica else Primary, Some(0), usedReplica && allowFallback, false, false, 1, [], 0)
  }

  function Scanned(r: RowState, answers: Answers): RowState {
    var outcome := if answers.first then Success else Failure(r.row);
    var falls := !answers.first && r.held && !r.fallbackOnce;
    var last := if !falls then outcome else if !answers.writer then PrimaryUnavailable
      else if answers.second then Success else
        Failure(Primary);
    var after :=
      if !falls then r
      else if !answers.writer then
        r.(fallbackOnce := true, started := r.started + 1, observation := None,
          ended := EndOf(r.ended + [Ending(r.started, PrimaryUnavailable)], r.observation, outcome))
      else
        r.(fallbackOnce := true, started := r.started + 1, observation := Some(r.started), row := Primary,
          ended := EndOf(r.ended, r.observation, outcome), primaryRetries := r.primaryRetries + 1);
    after.(once := true, ended := if r.once then after.ended else EndOf(after.ended, after.observation, last))
  }

  /** What a Scan call ends: on a fallback the observation of the replica with its error, or if there is
      no primary the new one first; and at the first call the one at hand, with the outcome. */
  lemma ScannedEnds(r: RowState, answers: Answers)
    ensures var falls, r' := !answers.first && r.held && !r.fallbackOnce, Scanned(r, answers);
      var outcome := if answers.first then Success
        else if !falls then Failure(r.row)
        else if !answers.writer then PrimaryUnavailable
        else if answers.second then Success
        else Failure(Primary);
      r'.ended == r.ended
        + (if falls && !answers.writer then [Ending(r.started, PrimaryUnavailable)] else [])
        + (if falls && r.observation.Some? then [Ending(r.observation.value, Failure(r.row))] else [])
        + (if !r.once && r'.observation.Some? then [Ending(r'.observation.value, outcome)] else [])
  {
  }

  class ObservedRow {
    const observer: Observer
    var row: Pool
    var observation: Option<nat>
    const held: bool
    var once: bool
    var fallbackOnce: bool
    var primaryRetries: nat

    function Value(): RowState
      reads this, observer
    {
      RowState(row, observation, held, once, fallbackOnce, observer.started, observer.ended, primaryRetries)
    }

    /** queryRowWithOperation with a new observer. */
    constructor (usedReplica: bool, allowFallback: bool)
      ensures fresh(observer) && Value() == Opened(usedReplica, allowFallback)
    {
      observer := new Observer();
      row := if usedReplica then Replica else Primary;
      held := usedReplica && allowFallback;
      once, fallbackOnce, primaryRetries := false, false, 0;
      new;
      var o := observer.Observe();
      observation := Some(o);
    }

    method Scan(answers: Answers) returns (outcome: Outcome)
      modifies this, observer
      ensures Value() == Scanned(old(Value()), answers)
      // A row that still holds its fallback falls back when it fails: to the primary, if there is one.
      ensures var falls := !answers.first && held && !old(fallbackOnce);
        && outcome == (if answers.first then Success
          else if !falls then Failure(old(row))
          else if !answers.writer then PrimaryUnavailable
          else if answers.second then Success
          else Failure(Primary))
        && row == (if falls && answers.writer then Primary else old(row))
        && observation
          == (if !falls then old(observation) else if answers.writer then Some(old(observer.started)) else None)
        && once && fallbackOnce == (old(fallbackOnce) || falls)
        && observer.started == old(observer.started) + (if falls then 1 else 0)
        && primaryRetries == old(primaryRetries) + (if falls && answers.writer then 1 else 0)
    {
      outcome := if answers.first then Success else Failure(row);
      if !outcome.Success? && held {
        var fbFailed := false;
        if !fallbackOnce {
          fallbackOnce := true;
          var fbObs := observer.Observe();
          if !answers.writer {
            fbFailed := true;
            observer.End(Some(fbObs), PrimaryUnavailable);
            observer.End(observation, outcome);
            observation := None;
          } else {
            primaryRetries := primaryRetries + 1;
            observer.End(observation, outcome);
            observation, row := Some(fbObs), Primary;
            outcome := if answers.second then Success else
              Failure(Primary);
          }
        }
        if fbFailed {
          outcome := PrimaryUnavailable;
        }
      }
      if !once {
        once := true;
        observer.End(observation, outcome);
      }
    }
  }

  /** Any number of Scan calls on one row. */
  function ScannedAll(r: RowState, calls: seq<Answers>): RowState {
    if calls == [] then r else Scanned(ScannedAll(r, calls[..|calls| - 1]), calls[|calls| - 1])
  }

  /** Some call after the first `from` found an error on the row at hand. */
  ghost predicate Fails(calls: seq<Answers>, from: nat) {
    exists i :: from <= i < |calls| && !calls[i].first
  }

  /** The first call that found an error on the row at hand. */
  function FirstFailure(calls: seq<Answers>): (r: Option<nat>)
    ensures r.Some? ==> r.value < |calls| && !calls[r.value].first && forall i :: 0 <= i < r.value ==> calls[i].first
    ensures r.None? ==> forall i :: 0 <= i < |calls| ==> calls[i].first
  {
    if calls == [] then None
    else
      var before := FirstFailure(calls[..|calls| - 1]);
      if before.Some? then before
      else if !calls[|calls| - 1].first then Some(|calls| - 1) else
        None
  }

  lemma FirstFailureFails(calls: seq<Answers>)
    ensures Fails(calls, 0) <==> FirstFailure(calls).Some?
  {
  }

  /** When the first call falls back: the replica's observation is ended with the replica's error
      and the other one with the outcome on the primary. */
  function FirstFallback(answers: Answers): seq<Ending>
  {
    if answers.writer then
      [Ending(0, Failure(Replica)), Ending(1, if answers.second then Success else Failure(Primary))]
    else
      [Ending(1, PrimaryUnavailable), Ending(0, Failure(Replica))]
  }

  /** Which of the four histories the row has had. */
  ghost predicate History(r: RowState, replica: bool, held: bool, calls: seq<Answers>)
    requires calls != []
  {
    && r.once && r.held == held
    && (r.row.Primary? <==> !replica || r.primaryRetries > 0)
    && if !held || !Fails(calls, 0) then
      && !r.fallbackOnce && r.observation == Some(0) && r.started == 1 && r.primaryRetries == 0
      && r.ended == [Ending(0, if calls[0].first then Success else Failure(r.row))]
    else
      && r.fallbackOnce && r.started == 2
      && FirstFailure(calls).Some? && r.primaryRetries == (if calls[FirstFailure(calls).value].writer then 1 else 0)
      && if !calls[0].first then
        r.ended == FirstFallback(calls[0])
      else
        && |r.ended| >= 2 && r.ended[0].observation == 0 && r.ended[|r.ended| - 1].observation == 0
        && (|r.ended| == 2 || (|r.ended| == 3 && r.ended[1].observation == 1))
  }

  lemma FailsMore(calls: seq<Answers>, last: Answers)
    ensures Fails(calls + [last], 0) <==> Fails(calls, 0) || !last.first
  {
    if Fails(calls, 0) {
      var i :| 0 <= i < |calls| && !calls[i].first;
      assert !(calls + [last])[i].first;
    }
    assert (calls + [last])[|calls|] == last;
  }

  lemma FirstFailureMore(calls: seq<Answers>, last: Answers)
    ensures FirstFailure(calls + [last])
      == if FirstFailure(calls).Some? then FirstFailure(calls) else if !last.first then Some(|calls|) else None
  {
    assert (calls + [last])[..|calls|] == calls;
  }

  lemma HistoryStarts(usedReplica: bool, allowFallback: bool, call: Answers)
    ensures History(Scanned(Opened(usedReplica, allowFallback), call), usedReplica, usedReplica && allowFallback,
      [call])
  {
    NoFailure([]);
    FailsMore([], call);
    FirstFailureMore([], call);
    assert [] + [call] == [call];
    hide Fails, FirstFailure;
  }

  lemma HistoryGoesOn(r: RowState, replica: bool, held: bool, calls: seq<Answers>, call: Answers)
    requires calls != [] && History(r, replica, held, calls) && (held ==> replica)
    ensures History(Scanned(r, call), replica, held, calls + [call])
  {
    FailsMore(calls, call);
    FirstFailureFails(calls);
    FirstFailureMore(calls, call);
    assert (calls + [call])[0] == calls[0] && (calls + [call])[|calls|] == call;
    hide Fails, FirstFailure, FirstFallback;
  }

  lemma {:induction false} HistoryOf(usedReplica: bool, allowFallback: bool, calls: seq<Answers>)
    requires calls != []
    ensures History(ScannedAll(Opened(usedReplica, allowFallback), calls), usedReplica, usedReplica && allowFallback,
      calls)
  {
    hide History, Scanned;
    var init, last := calls[..|calls| - 1], calls[|calls| - 1];
    assert calls == init + [last];
    if init != [] {
      HistoryOf(usedReplica, allowFallback, init);
      HistoryGoesOn(ScannedAll(Opened(usedReplica, allowFallback), init), usedReplica, usedReplica && allowFallback,
        init, last);
    } else {
      HistoryStarts(usedReplica, allowFallback, last);
    }
  }

  lemma NoFailure(none: seq<Answers>)
    requires none == []
    ensures !Fails(none, 0)
  {
  }

  function Is(ended: seq<Ending>, k: nat, o: nat): nat {
    if k < |ended| && ended[k].observation == o then 1 else 0
  }

  lemma EndingsOfFew(ended: seq<Ending>)
    requires 1 <= |ended| <= 3
    ensures forall o :: Endings(ended, o) == Is(ended, 0, o) + Is(ended, 1, o) + Is(ended, 2, o)
  {
    EndingsMore([], ended[0]);
    assert [] + [ended[0]] == ended[..1];
    if |ended| > 1 {
      EndingsMore(ended[..1], ended[1]);
      assert ended[..1] + [ended[1]] == ended[..2];
    }
    if |ended| > 2 {
      EndingsMore(ended[..2], ended[2]);
      assert ended[..2] + [ended[2]] == ended[..3];
    }
    assert ended[..|ended|] == ended;
  }

  lemma FailsFrom(calls: seq<Answers>)
    requires calls != []
    ensures Fails(calls, 0) <==> !calls[0].first || Fails(calls, 1)
  {
  }

  lemma HistoryEndsOnce(r: RowState, replica: bool, held: bool, calls: seq<Answers>)
    requires calls != [] && History(r, replica, held, calls)
    ensures EndedOnce(r.started, r.ended) <==> !(held && calls[0].first && Fails(calls, 1))
  {
    FailsFrom(calls);
    hide Endings, Fails;
    EndingsOfFew(r.ended);
    if held && calls[0].first && Fails(calls, 1) {
      assert Endings(r.ended, 0) == 2;
    } else if held && Fails(calls, 0) {
      assert r.started == 2 && r.ended == FirstFallback(calls[0]);
    } else {
      assert r.started == 1 && r.ended[0].observation == 0;
    }
  }

  lemma NeverScanned(usedReplica: bool, allowFallback: bool)
    ensures var r := ScannedAll(Opened(usedReplica, allowFallback), []);
      !EndedOnce(r.started, r.ended)
  {
    var none: seq<Ending> := [];
    assert Endings(none, 0) == 0;
  }

  /** Every observation is ended exactly once if and only if Scan is called at all, and it is not
      the case that the first call succeeds and a later one fails on a row that still holds its
      fallback. */
  lemma ObservationsEndOnce(usedReplica: bool, allowFallback: bool, calls: seq<Answers>)
    ensures var r := ScannedAll(Opened(usedReplica, allowFallback), calls);
      EndedOnce(r.started, r.ended) <==>
        calls != [] && !(usedReplica && allowFallback && calls[0].first && Fails(calls, 1))
    ensures calls != [] && usedReplica && allowFallback && !calls[0].first ==>
      ScannedAll(Opened(usedReplica, allowFallback), calls).ended == FirstFallback(calls[0])
  {
    hide ScannedAll, EndedOnce, Opened, FirstFallback;
    if calls == [] {
      NeverScanned(usedReplica, allowFallback);
    } else {
      HistoryOf(usedReplica, allowFallback, calls);
      var r := ScannedAll(Opened(usedReplica, allowFallback), calls);
      HistoryEndsOnce(r, usedReplica, usedReplica && allowFallback, calls);
    }
  }

  /** The primary is used as a fallback at most once: exactly if the options allow it, a replica
      failed, and there was a primary when it first did. */
  lemma FallbackAtMostOnce(usedReplica: bool, allowFallback: bool, calls: seq<Answers>)
    ensures var r, failed := ScannedAll(Opened(usedReplica, allowFallback), calls), FirstFailure(calls);
      r.primaryRetries == if usedReplica && allowFallback && failed.Some? && calls[failed.value].writer then 1 else 0
  {
    if calls != [] {
      HistoryOf(usedReplica, allowFallback, calls);
      FirstFailureFails(calls);
      hide Fails, ScannedAll;
    }
  }

  /** On a replica row that holds a fallback: a successful Scan, then a failed one. */
  lemma LateFailure()
    ensures var r := ScannedAll(Opened(true, true), [Answers(true, true, true), Answers(false, true, true)]);
      !EndedOnce(r.started, r.ended)
  {
    var calls := [Answers(true, true, true), Answers(false, true, true)];
    assert !calls[1].first;
    assert Fails(calls, 1);
    ObservationsEndOnce(true, true, calls);
  }
}
