/** Replica health and routing of a single read (orm/pg/driver.go); ReplicaConcurrency
    interleaves any number of reads. Times and lags are in one unit; the database handle has
    a primary. */
module ReplicaRouting {
  import opened Results

  datatype ReplicaConfig = ReplicaConfig(readOnly: bool, maxFollowerLag: int)

  datatype HealthReport = HealthReport(readOnly: bool, lag: int)

  /** `lastChecked` is absent while the field holds the zero time. */
  datatype Status = Status(lastChecked: Option<nat>, healthy: bool, lag: int, readOnly: bool)

  datatype ReadOptions = ReadOptions(maxLag: int, requireReadOnly: bool, disableFallback: bool)

  /** The routing values that a context can carry. */
  datatype Request = Request(forcePrimary: bool, options: Option<ReadOptions>, policyName: Option<string>)

  const UNCHECKED := Status(None, false, 0, false)

  function Normalised(opts: ReadOptions): ReadOptions {
    if opts.maxLag < 0 then opts.(maxLag := 0) else opts
  }

  // Health

  /** The status after a probe that ended at `now` with a report, or with an error if None. */
  function Checked(config: ReplicaConfig, before: Status, report: Option<HealthReport>, now: nat): Status {
    if report.None? then before.(lastChecked := Some(now), healthy := false)
    else
      var r := report.value;
      Status(Some(now), MeetsConfig(config, r.readOnly, r.lag), r.lag, r.readOnly)
  }

  predicate MeetsConfig(config: ReplicaConfig, readOnly: bool, lag: int) {
    (config.readOnly ==> readOnly) && (config.maxFollowerLag > 0 ==> lag <= config.maxFollowerLag)
  }

  /** The replica meets the limits of the read. */
  predicate Qualifies(status: Status, opts: ReadOptions) {
    status.healthy && (opts.requireReadOnly ==> status.readOnly) && (opts.maxLag > 0 ==> status.lag <= opts.maxLag)
  }

  predicate Stale(status: Status, interval: int, now: nat) {
    interval <= 0 || status.lastChecked.None? || now - status.lastChecked.value > interval
  }

  /** The re-check under the replica's lock, which skips the probe. */
  predicate RecentlyChecked(status: Status, interval: int, now: nat) {
    interval > 0 && status.lastChecked.Some? && now - status.lastChecked.value < interval
  }

  /** At `now`, a status used by a read that began at `start` is no older than the interval, or,
      if reads always probe, no older than the read. */
  predicate Fresh(status: Status, interval: int, start: nat, now: nat) {
    && status.lastChecked.Some? && status.lastChecked.value <= now
    && if interval > 0 then now - status.lastChecked.value <= interval else start <= status.lastChecked.value
  }

  /** A status that is not in the future, and healthy only within the replica's own limits. */
  predicate Sound(config: ReplicaConfig, status: Status, now: nat) {
    && (status.lastChecked.Some? ==> status.lastChecked.value <= now)
    && (status.healthy ==> status.lastChecked.Some? && MeetsConfig(config, status.readOnly, status.lag))
  }

  class ReplicaPool {
    const config: ReplicaConfig
    var status: Status

    constructor (config: ReplicaConfig)
      ensures this.config == config && status == UNCHECKED
    {
      this.config, status := config, UNCHECKED;
    }
  }

  class DB {
    const replicas: seq<ReplicaPool>
    var healthInterval: int
    var defaultName: string
    var policies: map<string, ReadOptions>
    var now: nat

    ghost predicate Valid()
      reads this, replicas
    {
      && (forall i, j :: 0 <= i < j < |replicas| ==> replicas[i] != replicas[j])
      && (forall i :: 0 <= i < |replicas| ==> Sound(replicas[i].config, replicas[i].status, now))
    }

    constructor (replicas: seq<ReplicaPool>, healthInterval: int)
      requires forall i, j :: 0 <= i < j < |replicas| ==> replicas[i] != replicas[j]
      requires forall i :: 0 <= i < |replicas| ==> replicas[i].status == UNCHECKED
      ensures Valid() && this.replicas == replicas && this.healthInterval == healthInterval
      ensures defaultName == "" && policies == map[]
    {
      this.replicas, this.healthInterval, defaultName, policies, now := replicas, healthInterval, "", map[], 0;
    }

    /** Stores the policies with negative lag limits turned into "no limit". */
    method UseReplicaPolicies(name: string, named: map<string, ReadOptions>)
      modifies this`defaultName, this`policies
      ensures defaultName == name && policies.Keys == named.Keys
      ensures forall n :: n in named ==>
        policies[n] == named[n].(maxLag := if named[n].maxLag < 0 then 0 else named[n].maxLag)
    {
      defaultName := name;
      policies := map n | n in named :: Normalised(named[n]);
    }

    /** Time passes while the driver works. */
    method Elapse()
      modifies this`now
      ensures now >= old(now)
    {
      var d: nat :| true;
      now := now + d;
    }

    /** The probe query; its outcome is up to the replica. */
    method Probe() returns (report: Option<HealthReport>)
      modifies this`now
      ensures now >= old(now)
    {
      Elapse();
      report := *;
    }

    method RunReplicaHealthCheck(replica: ReplicaPool) returns (status: Status)
      requires Valid() && replica in replicas
      modifies this`now, replica`status
      ensures Valid() && now >= old(now) && status == replica.status
      ensures Fresh(status, healthInterval, old(now), now)
      // The probe is skipped exactly when the last one is recent.
      ensures var last := old(replica.status).lastChecked;
        if healthInterval > 0 && last.Some? && old(now) - last.value < healthInterval then
          status == old(replica.status) && now == old(now)
        else
          status.lastChecked == Some(now)
          && exists report :: status == Checked(replica.config, old(replica.status), report, now)
    {
      status := replica.status;
      if healthInterval > 0 && status.lastChecked.Some? && now - status.lastChecked.value < healthInterval {
        return;
      }
      ghost var before := status;
      var report := Probe();
      status := status.(lastChecked := Some(now));
      if report.None? {
        status := status.(healthy := false);
        replica.status := status;
        assert status == Checked(replica.config, before, report, now);
        return;
      }
      status := status.(readOnly := report.value.readOnly, lag := report.value.lag, healthy := true);
      if replica.config.readOnly && !report.value.readOnly {
        status := status.(healthy := false);
      }
      if replica.config.maxFollowerLag > 0 && report.value.lag > replica.config.maxFollowerLag {
        status := status.(healthy := false);
      }
      replica.status := status;
      assert status == Checked(replica.config, before, report, now);
    }

    /** One round of the loop: the status of a replica, probed again if it is stale. */
    method Look(i: nat) returns (status: Status, ghost at: nat)
      requires Valid() && i < |replicas|
      modifies this`now, replicas[i]
      ensures Valid() && now >= old(now) && status == replicas[i].status
      ensures Fresh(status, healthInterval, old(now), now)
      // There is no probe exactly if the status is no older than the interval when looked at.
      ensures old(now) <= at <= now
      ensures var last := old(replicas[i].status).lastChecked;
        if healthInterval > 0 && last.Some? && at - last.value <= healthInterval then
          now == at && status == old(replicas[i].status)
        else
          status.lastChecked == Some(now)
    {
      Elapse();
      at := now;
      status := replicas[i].status;
      if healthInterval <= 0 || Stale(status, healthInterval, now) {
        status := RunReplicaHealthCheck(replicas[i]);
      }
    }

    /** The first replica in list order whose status, fresh when looked at, qualifies; `looked`
        are the times at which the statuses were looked at. */
    method SelectReplica(opts: ReadOptions) returns (chosen: Option<nat>, status: Status, ghost looked: seq<nat>)
      requires Valid()
      modifies this`now, replicas
      ensures Valid() && now >= old(now)
      ensures var n := if chosen.Some? then chosen.value else |replicas|;
        && n <= |replicas|
        && (forall j :: 0 <= j < n ==> !Qualifies(replicas[j].status, opts))
        && (chosen.Some? ==> n < |replicas| && status == replicas[n].status && Qualifies(status, opts))
        && (chosen.Some? ==> MeetsConfig(replicas[n].config, status.readOnly, status.lag))
        && |looked| == (if chosen.Some? then n + 1 else n)
        && forall j :: 0 <= j < |looked| ==>
          old(now) <= looked[j] <= now && Fresh(replicas[j].status, healthInterval, old(now), looked[j])
      ensures forall j :: |looked| <= j < |replicas| ==> replicas[j].status == old(replicas[j].status)
    {
      looked := [];
      for i := 0 to |replicas|
        invariant Valid() && now >= old(now) && |looked| == i
        invariant forall j :: 0 <= j < i ==> !Qualifies(replicas[j].status, opts)
        invariant forall j :: 0 <= j < i ==>
          old(now) <= looked[j] <= now && Fresh(replicas[j].status, healthInterval, old(now), looked[j])
        invariant forall j :: i <= j < |replicas| ==> replicas[j].status == old(replicas[j].status)
      {
        ghost var at;
        status, at := Look(i);
        looked := looked + [now];
        if !status.healthy {
          continue;
        }
        if opts.requireReadOnly && !status.readOnly {
          continue;
        }
        if opts.maxLag > 0 && status.lag > opts.maxLag {
          continue;
        }
        return Some(i), status, looked;
      }
      return None, UNCHECKED, looked;
    }

    /** The replica is healthy and within the limits of the read and of its own configuration, by a
        status that was fresh at some moment since `start`. */
    ghost predicate Serves(replica: ReplicaPool, opts: ReadOptions, start: nat)
      reads this, replica
    {
      var config, status := replica.config, replica.status;
      && status.healthy && (opts.requireReadOnly ==> status.readOnly) && (opts.maxLag > 0 ==> status.lag <= opts.maxLag)
      && (config.readOnly ==> status.readOnly) && (config.maxFollowerLag > 0 ==> status.lag <= config.maxFollowerLag)
      && status.lastChecked.Some?
      && exists at: nat :: start <= at <= now && FreshAt(status.lastChecked.value, start, at)
    }

    ghost predicate FreshAt(checked: nat, start: nat, at: nat)
      reads this
    {
      checked <= at && if healthInterval > 0 then at - checked <= healthInterval else start <= checked
    }

    /** The replica that serves the read, or the primary if None, and the options in force. The
        status of the replica was fresh when looked at, and within the replica's own limits. The
        checks that follow the selection never divert a read. */
    method ReaderPool(request: Request) returns (replica: Option<nat>, opts: ReadOptions)
      requires Valid()
      modifies this`now, replicas
      ensures Valid() && now >= old(now)
      // Explicit options win over the policy named in the request, which wins over the default one.
      ensures var named := request.policyName.Some? && request.policyName.value != ""
          && request.policyName.value in policies;
        var policy :=
          if request.options.Some? then
            Some(request.options.value.(maxLag :=
              if request.options.value.maxLag < 0 then 0 else request.options.value.maxLag))
          else if named then Some(policies[request.policyName.value])
          else if defaultName != "" && defaultName in policies then Some(policies[defaultName])
          else None;
        if request.forcePrimary || policy.None? || replicas == [] then
          replica.None? && now == old(now) && forall r :: r in replicas ==> r.status == old(r.status)
        else
          && opts == policy.value
          && (replica.Some? ==> replica.value < |replicas| && Serves(replicas[replica.value], opts, old(now)))
          && forall j :: 0 <= j < (if replica.Some? then replica.value else |replicas|) ==>
            var status := replicas[j].status;
            !status.healthy || (opts.requireReadOnly && !status.readOnly)
              || (opts.maxLag > 0 && status.lag > opts.maxLag)
    {
      opts := ReadOptions(0, false, false);
      if request.forcePrimary {
        return None, opts;
      }
      var usePolicy := request.options.Some?;
      var policyName := "";
      if usePolicy {
        opts := Normalised(request.options.value);
      } else if request.policyName.Some? {
        policyName := request.policyName.value;
      }
      if !usePolicy {
        if policyName != "" {
          if policyName in policies {
            opts, usePolicy := policies[policyName], true;
          }
        }
      }
      if !usePolicy {
        if defaultName != "" && defaultName in policies {
          opts, usePolicy := policies[defaultName], true;
        }
      }
      if !usePolicy || |replicas| == 0 {
        return None, ReadOptions(0, false, false);
      }
      var chosen, status, looked := SelectReplica(opts);
      if chosen.None? {
        return None, opts;
      }
      if opts.requireReadOnly && !status.readOnly {
        return None, opts;
      }
      if opts.maxLag > 0 && status.lag > opts.maxLag {
        return None, opts;
      }
      var i := chosen.value;
      assert FreshAt(replicas[i].status.lastChecked.value, old(now), looked[i]);
      return chosen, opts;
    }
  }
}
