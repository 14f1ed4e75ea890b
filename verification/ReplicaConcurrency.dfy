/** Any number of concurrent reads that select a replica (orm/pg/driver.go), with a fixed
    positive health interval. A read copies the status of a replica, looks at its age, and if
    it is stale takes the replica's lock, under which it looks again before it probes. */
module ReplicaConcurrency {
  import opened Results
  import opened ReplicaRouting

  datatype Cluster = Cluster(configs: seq<ReplicaConfig>, interval: int)

  /** The status a read has settled on for a replica, and when it looked at its age. */
  datatype Look = Look(status: Status, at: nat)

  datatype Phase =
    | Looking
    | Copied(status: Status)
    | Waiting
    | Probing(start: nat)
    | Settled(look: Look)
    | Done(chosen: Option<nat>)

  datatype Read = Read(opts: ReadOptions, index: nat, phase: Phase, looks: seq<Look>)

  /** A finished probe; an error has no report. */
  datatype Probe = Probe(start: nat, end: nat, report: Option<HealthReport>)

  datatype State = State(
    now: nat, statuses: seq<Status>, locks: seq<Option<nat>>, readers: map<nat, Read>, probes: seq<seq<Probe>>)

  datatype Step =
    | Tick(d: nat)
    | Begin(id: nat, opts: ReadOptions)
    | Copy(id: nat)
    | CheckAge(id: nat)
    | LockReplica(id: nat)
    | FinishProbe(id: nat, report: Option<HealthReport>)
    | Judge(id: nat)

  ghost predicate Shaped(c: Cluster, s: State) {
    && |s.statuses| == |s.locks| == |s.probes| == |c.configs|
    && forall id :: id in s.readers ==>
      s.readers[id].index <= |c.configs| && (!s.readers[id].phase.Done? ==> s.readers[id].index < |c.configs|)
  }

  ghost predicate Init(c: Cluster, s: State) {
    && c.interval > 0
    && s == State(s.now, seq(|c.configs|, _ => UNCHECKED), seq(|c.configs|, _ => None), map[],
      seq(|c.configs|, _ => []))
  }

  function Moved(s: State, id: nat, phase: Phase): State
    requires id in s.readers
  {
    s.(readers := s.readers[id := s.readers[id].(phase := phase)])
  }

  function Judged(c: Cluster, read: Read): Read
    requires read.phase.Settled?
  {
    var looks := read.looks + [read.phase.look];
    if Qualifies(read.phase.look.status, read.opts) then read.(phase := Done(Some(read.index)), looks := looks)
    else
      read.(index := read.index + 1, phase := if read.index + 1 < |c.configs| then Looking else Done(None),
        looks := looks)
  }

  ghost predicate NextStep(c: Cluster, s: State, s': State, step: Step)
    requires Shaped(c, s)
  {
    match step
    case Tick(d) => s' == s.(now := s.now + d)
    case Begin(id, opts) =>
      id !in s.readers && c.configs != [] && s' == s.(readers := s.readers[id := Read(opts, 0, Looking, [])])
    case Copy(id) =>
      && id in s.readers && s.readers[id].phase.Looking? && s.locks[s.readers[id].index].None?
      && s' == Moved(s, id, Copied(s.statuses[s.readers[id].index]))
    case CheckAge(id) =>
      && id in s.readers && s.readers[id].phase.Copied?
      && s' == Moved(s, id,
        if Stale(s.readers[id].phase.status, c.interval, s.now) then Waiting
          else Settled(Look(s.readers[id].phase.status, s.now)))
    case LockReplica(id) =>
      && id in s.readers && s.readers[id].phase.Waiting? && s.locks[s.readers[id].index].None?
      && var j := s.readers[id].index;
        if RecentlyChecked(s.statuses[j], c.interval, s.now) then
          s' == Moved(s, id, Settled(Look(s.statuses[j], s.now)))
        else s' == Moved(s, id, Probing(s.now)).(locks := s.locks[j := Some(id)])
    case FinishProbe(id, report) =>
      && id in s.readers && s.readers[id].phase.Probing?
      && var j := s.readers[id].index;
        var status := Checked(c.configs[j], s.statuses[j], report, s.now);
        s' == Moved(s, id, Settled(Look(status, s.now))).(
          statuses := s.statuses[j := status],
          locks := s.locks[j := None],
          probes := s.probes[j := s.probes[j] + [Probe(s.readers[id].phase.start, s.now, report)]])
    case Judge(id) =>
      id in s.readers && s.readers[id].phase.Settled? && s' == s.(readers := s.readers[id := Judged(c, s.readers[id])])
  }

  /** A read queues for the lock exactly if its copy of the status is older than the interval, and with
      the lock it probes exactly if the status then is not younger than that. */
  lemma {:induction false} ProbesWhenDue(c: Cluster, s: State, s': State, step: Step)
    requires Shaped(c, s) && c.interval > 0 && NextStep(c, s, s', step)
    ensures step.CheckAge? ==>
      var last := s.readers[step.id].phase.status.lastChecked;
      s'.readers[step.id].phase.Waiting? <==> last.None? || s.now > last.value + c.interval
    ensures step.LockReplica? ==>
      var j := s.readers[step.id].index;
      var last := s.statuses[j].lastChecked;
      && (s'.readers[step.id].phase.Probing? <==> last.None? || s.now >= last.value + c.interval)
      && (s'.locks[j].Some? <==> s'.readers[step.id].phase.Probing?)
  {
  }

  ghost predicate Next(c: Cluster, s: State, s': State) {
    Shaped(c, s) && exists step :: NextStep(c, s, s', step)
  }

  ghost predicate Reaches(c: Cluster, trace: seq<State>) {
    trace != [] && Init(c, trace[0])
      && forall i {:trigger trace[i]} :: 0 < i < |trace| ==> Next(c, trace[i - 1], trace[i])
  }

  // Replicas

  /** Each probe starts no sooner than one interval after the previous one finished. */
  ghost predicate Spaced(interval: int, probes: seq<Probe>) {
    && (forall k :: 0 <= k < |probes| ==> probes[k].start <= probes[k].end)
    && forall k :: 0 < k < |probes| ==> probes[k - 1].end + interval <= probes[k].start
  }

  /** The status that a history of probes leaves. */
  function StatusAfter(config: ReplicaConfig, probes: seq<Probe>): Status {
    if probes == [] then UNCHECKED
    else
      var last := probes[|probes| - 1];
      Checked(config, StatusAfter(config, probes[..|probes| - 1]), last.report, last.end)
  }

  lemma StatusMore(config: ReplicaConfig, probes: seq<Probe>, probe: Probe)
    ensures StatusAfter(config, probes + [probe])
      == Checked(config, StatusAfter(config, probes), probe.report, probe.end)
    ensures StatusAfter(config, probes + [probe]).lastChecked == Some(probe.end)
  {
    assert (probes + [probe])[..|probes|] == probes;
  }

  lemma LastChecked(config: ReplicaConfig, probes: seq<Probe>)
    ensures StatusAfter(config, probes).lastChecked == if probes == [] then None else Some(probes[|probes| - 1].end)
  {
  }

  /** A lock belongs to the one read that probes, and it probes only after the interval. */
  ghost predicate Locked(c: Cluster, s: State, j: nat, id: nat)
    requires Shaped(c, s) && j < |c.configs|
  {
    && id in s.readers && s.readers[id].index == j && s.readers[id].phase.Probing? && s.readers[id].phase.start <= s.now
    && (s.statuses[j].lastChecked.Some? ==> s.statuses[j].lastChecked.value + c.interval <= s.readers[id].phase.start)
  }

  ghost predicate ReplicaOk(c: Cluster, s: State, j: nat)
    requires Shaped(c, s) && j < |c.configs|
  {
    && Sound(c.configs[j], s.statuses[j], s.now)
    && Spaced(c.interval, s.probes[j]) && s.statuses[j] == StatusAfter(c.configs[j], s.probes[j])
    && (s.locks[j].Some? ==> Locked(c, s, j, s.locks[j].value))
  }

  // Reads

  /** The look was at a status within the replica's own limits, no older than the interval. */
  ghost predicate GoodLook(c: Cluster, look: Look, j: nat)
    requires j < |c.configs|
  {
    && Fresh(look.status, c.interval, 0, look.at)
    && (look.status.healthy ==> MeetsConfig(c.configs[j], look.status.readOnly, look.status.lag))
  }

  /** The looks so far, none of which qualified but the chosen one. */
  ghost predicate Trail(c: Cluster, read: Read)
    requires read.index <= |c.configs|
  {
    var n := if read.phase.Done? && read.phase.chosen.Some? then read.index + 1 else read.index;
    && n == |read.looks| <= |c.configs|
    && (forall j :: 0 <= j < n ==> GoodLook(c, read.looks[j], j))
    && (forall j :: 0 <= j < read.index ==> !Qualifies(read.looks[j].status, read.opts))
    && (read.phase.Done? ==>
      if read.phase.chosen.Some? then
        read.phase.chosen.value == read.index && Qualifies(read.looks[read.index].status, read.opts)
      else read.index == |c.configs|)
  }

  ghost predicate ReadOk(c: Cluster, s: State, id: nat)
    requires Shaped(c, s) && id in s.readers
  {
    var read := s.readers[id];
    && Trail(c, read)
    && (read.phase.Copied? ==> Sound(c.configs[read.index], read.phase.status, s.now))
    && (read.phase.Settled? ==> GoodLook(c, read.phase.look, read.index))
    && (read.phase.Probing? ==> s.locks[read.index] == Some(id))
  }

  ghost predicate Safe(c: Cluster, s: State) {
    && c.interval > 0 && Shaped(c, s)
    && (forall j :: 0 <= j < |c.configs| ==> ReplicaOk(c, s, j))
    && (forall id :: id in s.readers ==> ReadOk(c, s, id))
  }

  lemma ShapedStep(c: Cluster, s: State, s': State, step: Step)
    requires Shaped(c, s) && NextStep(c, s, s', step)
    ensures Shaped(c, s')
  {
    hide Checked, Qualifies, Stale, RecentlyChecked;
  }

  lemma SpacedMore(interval: int, probes: seq<Probe>, probe: Probe)
    requires Spaced(interval, probes) && probe.start <= probe.end
    requires probes != [] ==> probes[|probes| - 1].end + interval <= probe.start
    ensures Spaced(interval, probes + [probe])
  {
  }

  lemma CheckedIsSound(config: ReplicaConfig, before: Status, report: Option<HealthReport>, now: nat)
    ensures Sound(config, Checked(config, before, report, now), now)
  {
  }

  /** What is known of the replica that a read probes. */
  lemma ProbedReplica(c: Cluster, s: State, id: nat)
    requires Safe(c, s) && id in s.readers && s.readers[id].phase.Probing?
    ensures var j, start := s.readers[id].index, s.readers[id].phase.start;
      && start <= s.now && Spaced(c.interval, s.probes[j]) && s.statuses[j] == StatusAfter(c.configs[j], s.probes[j])
      && (s.probes[j] != [] ==> s.probes[j][|s.probes[j]| - 1].end + c.interval <= start)
  {
    var j := s.readers[id].index;
    assert ReadOk(c, s, id) && ReplicaOk(c, s, j);
    assert Locked(c, s, j, id);
    hide Trail, GoodLook, Spaced, Sound, StatusAfter;
    LastChecked(c.configs[j], s.probes[j]);
  }

  lemma FinishOk(c: Cluster, s: State, s': State, id: nat, report: Option<HealthReport>)
    requires Safe(c, s) && NextStep(c, s, s', FinishProbe(id, report))
    ensures Shaped(c, s') && ReplicaOk(c, s', s.readers[id].index)
  {
    ProbedReplica(c, s, id);
    ShapedStep(c, s, s', FinishProbe(id, report));
    hide Trail, GoodLook, StatusAfter, Spaced, Sound, Checked, ReadOk, Locked;
    var j := s.readers[id].index;
    var probe := Probe(s.readers[id].phase.start, s.now, report);
    SpacedMore(c.interval, s.probes[j], probe);
    StatusMore(c.configs[j], s.probes[j], probe);
    CheckedIsSound(c.configs[j], s.statuses[j], report, s.now);
  }

  lemma ReplicaStep(c: Cluster, s: State, s': State, step: Step, j: nat)
    requires Safe(c, s) && NextStep(c, s, s', step) && Shaped(c, s') && j < |c.configs|
    ensures ReplicaOk(c, s', j)
  {
    assert ReplicaOk(c, s, j);
    hide Trail, GoodLook, Spaced, StatusAfter, Checked, Qualifies;
    if step.FinishProbe? && s.readers[step.id].index == j {
      FinishOk(c, s, s', step.id, step.report);
    }
  }

  lemma NewTrail(c: Cluster, opts: ReadOptions)
    ensures Trail(c, Read(opts, 0, Looking, []))
  {
  }

  lemma TrailStays(c: Cluster, read: Read, phase: Phase)
    requires read.index <= |c.configs| && Trail(c, read) && !read.phase.Done? && !phase.Done?
    ensures Trail(c, read.(phase := phase))
  {
  }

  lemma TrailGrows(c: Cluster, read: Read)
    requires read.index < |c.configs| && Trail(c, read) && read.phase.Settled?
    requires GoodLook(c, read.phase.look, read.index)
    ensures Judged(c, read).index <= |c.configs| && Trail(c, Judged(c, read))
  {
    hide GoodLook, Qualifies;
  }

  /** The copied status that is not stale, and the one found under the lock. */
  lemma AgeOk(c: Cluster, status: Status, j: nat, now: nat)
    requires j < |c.configs| && c.interval > 0 && Sound(c.configs[j], status, now)
    ensures !Stale(status, c.interval, now) || RecentlyChecked(status, c.interval, now) ==>
      GoodLook(c, Look(status, now), j)
  {
  }

  lemma ProbeOk(c: Cluster, status: Status, j: nat, report: Option<HealthReport>, now: nat)
    requires j < |c.configs| && c.interval > 0
    ensures GoodLook(c, Look(Checked(c.configs[j], status, report, now), now), j)
  {
  }

  lemma SoundLater(config: ReplicaConfig, status: Status, now: nat, later: nat)
    requires Sound(config, status, now) && now <= later
    ensures Sound(config, status, later)
  {
  }

  lemma OwnReadStep(c: Cluster, s: State, s': State, step: Step, id: nat)
    requires Safe(c, s) && NextStep(c, s, s', step) && Shaped(c, s') && !step.Tick? && step.id == id && id in s'.readers
    ensures ReadOk(c, s', id)
  {
    hide Trail, GoodLook, Sound, Stale, RecentlyChecked, Checked, Qualifies, Spaced, StatusAfter, Locked;
    if !step.Begin? {
      var read := s.readers[id];
      assert ReadOk(c, s, id);
      assert read.index < |c.configs| ==> ReplicaOk(c, s, read.index);
      match step
      case Begin(_, _) =>
      case Copy(_) => TrailStays(c, read, s'.readers[id].phase);
      case CheckAge(_) =>
        AgeOk(c, read.phase.status, read.index, s.now);
        TrailStays(c, read, s'.readers[id].phase);
      case LockReplica(_) =>
        AgeOk(c, s.statuses[read.index], read.index, s.now);
        TrailStays(c, read, s'.readers[id].phase);
      case FinishProbe(_, report) =>
        ProbeOk(c, s.statuses[read.index], read.index, report, s.now);
        TrailStays(c, read, s'.readers[id].phase);
      case Judge(_) =>
        TrailGrows(c, read);
        assert !Judged(c, read).phase.Copied? && !Judged(c, read).phase.Settled? && !Judged(c, read).phase.Probing?;
    } else {
      NewTrail(c, step.opts);
    }
  }

  lemma OtherReadStep(c: Cluster, s: State, s': State, step: Step, id: nat)
    requires Safe(c, s) && NextStep(c, s, s', step) && Shaped(c, s') && id in s.readers && (step.Tick? || step.id != id)
    ensures id in s'.readers && ReadOk(c, s', id)
  {
    hide Trail, GoodLook, Sound, Stale, RecentlyChecked, Checked, Qualifies, Spaced, StatusAfter, Locked, Judged;
    assert ReadOk(c, s, id);
    assert s'.readers[id] == s.readers[id] && s.now <= s'.now;
    if step.FinishProbe? {
      assert ReadOk(c, s, step.id);
    }
    if s.readers[id].phase.Copied? {
      SoundLater(c.configs[s.readers[id].index], s.readers[id].phase.status, s.now, s'.now);
    }
  }

  lemma ReadStep(c: Cluster, s: State, s': State, step: Step, id: nat)
    requires Safe(c, s) && NextStep(c, s, s', step) && Shaped(c, s') && id in s'.readers
    ensures ReadOk(c, s', id)
  {
    if !step.Tick? && step.id == id {
      OwnReadStep(c, s, s', step, id);
    } else {
      hide Safe, ReadOk;
      OtherReadStep(c, s, s', step, id);
    }
  }

  lemma SafeStep(c: Cluster, s: State, s': State)
    requires Safe(c, s) && Next(c, s, s')
    ensures Safe(c, s')
  {
    var step :| NextStep(c, s, s', step);
    ShapedStep(c, s, s', step);
    hide NextStep, ReplicaOk, ReadOk;
    forall j | 0 <= j < |c.configs| ensures ReplicaOk(c, s', j) { ReplicaStep(c, s, s', step, j); }
    forall id | id in s'.readers ensures ReadOk(c, s', id) { ReadStep(c, s, s', step, id); }
  }

  lemma InitSafe(c: Cluster, s: State)
    requires Init(c, s)
    ensures Safe(c, s)
  {
  }

  lemma {:induction false} AlwaysSafe(c: Cluster, trace: seq<State>, i: nat)
    requires Reaches(c, trace) && i < |trace|
    ensures Safe(c, trace[i])
  {
    hide Safe;
    if i == 0 {
      InitSafe(c, trace[0]);
    } else {
      AlwaysSafe(c, trace, i - 1);
      assert Next(c, trace[i - 1], trace[i]);
      SafeStep(c, trace[i - 1], trace[i]);
    }
  }

  /** A read goes to the first replica that qualifies, judged by statuses no older than the
      interval when looked at, and to the primary only if none of them qualifies. */
  lemma ReadsAreRoutedWell(c: Cluster, trace: seq<State>, i: nat, id: nat)
    requires Reaches(c, trace) && i < |trace| && id in trace[i].readers && trace[i].readers[id].phase.Done?
    ensures var read := trace[i].readers[id];
      var n := if read.phase.chosen.Some? then read.phase.chosen.value else |c.configs|;
      && n <= |c.configs| && n <= |read.looks| <= |c.configs|
      && (forall j :: 0 <= j < |read.looks| ==> GoodLook(c, read.looks[j], j))
      && (forall j :: 0 <= j < n ==> !Qualifies(read.looks[j].status, read.opts))
      && (read.phase.chosen.Some? ==> n < |read.looks| && Qualifies(read.looks[n].status, read.opts))
  {
    AlwaysSafe(c, trace, i);
    assert ReadOk(c, trace[i], id);
  }

  ghost predicate ProbingAt(s: State, id: nat, j: nat) {
    id in s.readers && s.readers[id].phase.Probing? && s.readers[id].index == j
  }

  /** A replica is probed by one read at a time, and no sooner than one interval after the
      previous probe finished. */
  lemma ProbesAreSpaced(c: Cluster, trace: seq<State>, i: nat, j: nat)
    requires Reaches(c, trace) && i < |trace| && j < |c.configs|
    ensures j < |trace[i].probes| && Spaced(c.interval, trace[i].probes[j])
    ensures forall a: nat, b: nat :: ProbingAt(trace[i], a, j) && ProbingAt(trace[i], b, j) ==> a == b
    ensures trace[i].probes[j] != [] ==> forall id: nat :: ProbingAt(trace[i], id, j) ==>
      trace[i].probes[j][|trace[i].probes[j]| - 1].end + c.interval <= trace[i].readers[id].phase.start
  {
    hide *;
    AlwaysSafe(c, trace, i);
    ProbesOk(c, trace[i], j);
  }

  lemma ProbesOk(c: Cluster, s: State, j: nat)
    requires Safe(c, s) && j < |c.configs|
    ensures j < |s.probes| && Spaced(c.interval, s.probes[j])
    ensures forall a: nat, b: nat :: ProbingAt(s, a, j) && ProbingAt(s, b, j) ==> a == b
    ensures s.probes[j] != [] ==> forall id: nat :: ProbingAt(s, id, j) ==>
      s.probes[j][|s.probes[j]| - 1].end + c.interval <= s.readers[id].phase.start
  {
    hide Trail, GoodLook, Spaced, Sound, StatusAfter;
    assert ReplicaOk(c, s, j);
    LastChecked(c.configs[j], s.probes[j]);
    forall id: nat | ProbingAt(s, id, j) ensures s.locks[j] == Some(id) {
      assert ReadOk(c, s, id);
    }
  }

  /** A replica is healthy exactly if its last finished probe succeeded within the replica's own
      limits, and then its status is what that probe reported. */
  lemma HealthFollowsLastProbe(c: Cluster, trace: seq<State>, i: nat, j: nat)
    requires Reaches(c, trace) && i < |trace| && j < |c.configs|
    ensures j < |trace[i].probes| && j < |trace[i].statuses|
    ensures var status, probes := trace[i].statuses[j], trace[i].probes[j];
      if probes == [] then !status.healthy && status.lastChecked == None
      else
        var last := probes[|probes| - 1];
        && status.lastChecked == Some(last.end) && last.end <= trace[i].now
        && (status.healthy <==>
          && last.report.Some?
          && (c.configs[j].readOnly ==> last.report.value.readOnly)
          && (c.configs[j].maxFollowerLag > 0 ==> last.report.value.lag <= c.configs[j].maxFollowerLag))
        && (last.report.Some? ==> status.readOnly == last.report.value.readOnly && status.lag == last.report.value.lag)
  {
    AlwaysSafe(c, trace, i);
    hide Reaches, ReadOk, Spaced;
    assert ReplicaOk(c, trace[i], j);
  }
}
