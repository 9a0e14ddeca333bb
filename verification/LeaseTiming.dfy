/**
  Lease and heartbeat arithmetic: the configured interval always fits the
  lease, and a worker whose heartbeats keep time is never recovered.
  Source: backend/core/config.py, backend/services/simulation_worker.py
*/
module LeaseTiming {
  import opened Wrappers
  import opened JobRow

  datatype JobSettings = JobSettings(
    heartbeatInterval: real,
    leaseSeconds: int,
    timeoutSeconds: int,
    maxAttempts: int,
    retryBaseSeconds: int,
    retryMaxSeconds: int)

  /** An environment variable as parsed: missing or malformed text is None. */
  function PositiveInt(parsed: Option<int>, default: int): int {
    match parsed
    case None => default
    case Some(n) => if n > 1 then n else 1
  }

  function PositiveReal(parsed: Option<real>, default: real): real {
    match parsed
    case None => default
    case Some(x) => if x > 0.1 then x else 0.1
  }

  datatype Environment = Environment(
    lease: Option<int>,
    heartbeat: Option<real>,
    timeout: Option<int>,
    attempts: Option<int>,
    retryBase: Option<int>,
    retryMax: Option<int>)

  /**
    Whatever the environment holds, a heartbeat falls due within the lease, and from two seconds of
    lease on at least twice within it. The attempt limit satisfies the table's check constraint.
  */
  function GetSettings(env: Environment): (s: JobSettings)
    ensures 0.0 < s.heartbeatInterval <= s.leaseSeconds as real
    ensures s.leaseSeconds >= 2 ==> 2.0 * s.heartbeatInterval <= s.leaseSeconds as real
    ensures s.maxAttempts >= 1 && s.retryBaseSeconds >= 1 && s.retryMaxSeconds >= 1
  {
    var lease := PositiveInt(env.lease, 90);
    var heartbeat := PositiveReal(env.heartbeat, 20.0);
    var half := lease as real / 2.0;
    var cap := if half > 1.0 then half else 1.0;
    JobSettings(
      if heartbeat < cap then heartbeat else cap,
      lease,
      PositiveInt(env.timeout, 3600),
      PositiveInt(env.attempts, 3),
      PositiveInt(env.retryBase, 5),
      PositiveInt(env.retryMax, 300))
  }

  /** A positive whole number that is configured is used; without one it is the default, and otherwise one. */
  predicate TakesWhole(configured: Option<int>, default: int, used: int) {
    && (configured.None? ==> used == default)
    && (configured.Some? && configured.value >= 1 ==> used == configured.value)
    && (configured.Some? && configured.value < 1 ==> used == 1)
  }

  /**
    Settings are used as configured. The interval is the configured one, or twenty seconds, and at least a
    tenth of a second, unless that is more than half the lease and more than a second; then it is the
    larger of these two.
  */
  lemma SettingsAsConfigured(env: Environment)
    ensures var s := GetSettings(env);
            && TakesWhole(env.lease, 90, s.leaseSeconds) && TakesWhole(env.timeout, 3600, s.timeoutSeconds)
            && TakesWhole(env.attempts, 3, s.maxAttempts)
            && TakesWhole(env.retryBase, 5, s.retryBaseSeconds) && TakesWhole(env.retryMax, 300, s.retryMaxSeconds)
            && var wanted := if env.heartbeat.None? then 20.0 else if env.heartbeat.value < 0.1 then 0.1 else env.heartbeat.value;
               var tooLong := 2.0 * wanted > s.leaseSeconds as real && wanted > 1.0;
               && (!tooLong ==> s.heartbeatInterval == wanted)
               && (tooLong ==> s.heartbeatInterval in {1.0, s.leaseSeconds as real / 2.0}
                               && s.heartbeatInterval >= 1.0 && 2.0 * s.heartbeatInterval >= s.leaseSeconds as real)
  {
  }

  // ---------- A running job seen over time

  /** The owner's heartbeat fired, with or without reaching the store, or anybody else did anything. */
  datatype Moment =
    | Beat(time: Time, reached: bool)
    | Other(time: Time, event: RowEvent)

  /** Events that are neither the owner ending its own attempt nor an administrative call. */
  predicate ByOthers(event: RowEvent, w: WorkerId, time: Time) {
    match event
    case Finished(caller, _, _, _) => caller.Some? && caller.value != w
    case AttemptFailed(caller, _, _, _) => caller.Some? && caller.value != w
    case Recovered(now) => now == time
    case Beaten(v, _, _) => v != w
    case LateBeat(_, _) => false
    case _ => true
  }

  /**
    The heartbeat thread keeps time: it fires exactly one interval after the last time it fired, and
    nothing else happens in between later than that. A beat that does not reach the store is allowed only
    when `tolerant`, and never twice in a row.
  */
  predicate OnSchedule(moments: seq<Moment>, last: Time, missed: bool, w: WorkerId, interval: real, tolerant: bool) {
    moments == [] ||
    match moments[0]
    case Beat(time, reached) =>
      && time == last + interval
      && (reached || (tolerant && !missed))
      && OnSchedule(moments[1..], time, !reached, w, interval, tolerant)
    case Other(time, event) =>
      && last <= time <= last + interval
      && ByOthers(event, w, time)
      && OnSchedule(moments[1..], last, missed, w, interval, tolerant)
  }

  function Play(job: Job, moments: seq<Moment>, w: WorkerId, lease: Time): Job
    decreases |moments|
  {
    if moments == [] then job
    else
      match moments[0]
      case Beat(time, reached) =>
        Play(if reached then ApplyRow(job, Beaten(w, time, lease)) else job, moments[1..], w, lease)
      case Other(time, event) => Play(ApplyRow(job, event), moments[1..], w, lease)
  }

  lemma OthersLeaveOwnerAlone(job: Job, event: RowEvent, w: WorkerId, time: Time)
    requires OwnedBy(job, w) && ByOthers(event, w, time)
    requires job.leaseExpiresAt.Some? && time <= job.leaseExpiresAt.value
    ensures OwnedBy(ApplyRow(job, event), w)
    ensures ApplyRow(job, event).leaseExpiresAt == job.leaseExpiresAt
    ensures ApplyRow(job, event).attempts == job.attempts
  {
  }

  /**
    Timed lease safety: whatever recovery passes, cancel calls and other workers do meanwhile, an owner
    whose heartbeats keep time keeps its row. One missed heartbeat between two good ones is survived
    when the lease spans two intervals.
  */
  lemma {:induction false} TimelyOwnerKeepsItsRow(
    job: Job, moments: seq<Moment>, last: Time, missed: bool, w: WorkerId, interval: real, lease: Time, tolerant: bool)
    requires 0.0 < interval <= lease && (tolerant ==> 2.0 * interval <= lease)
    requires OwnedBy(job, w) && job.leaseExpiresAt.Some? && (missed ==> tolerant)
    requires job.leaseExpiresAt.value >= (if missed then last - interval else last) + lease
    requires OnSchedule(moments, last, missed, w, interval, tolerant)
    ensures OwnedBy(Play(job, moments, w, lease), w)
    ensures Play(job, moments, w, lease).attempts == job.attempts
    decreases |moments|
  {
    if moments != [] {
      match moments[0] {
        case Beat(time, reached) =>
          TimelyOwnerKeepsItsRow(if reached then ApplyRow(job, Beaten(w, time, lease)) else job,
                                 moments[1..], time, !reached, w, interval, lease, tolerant);
        case Other(time, event) =>
          OthersLeaveOwnerAlone(job, event, w, time);
          TimelyOwnerKeepsItsRow(ApplyRow(job, event), moments[1..], last, missed, w, interval, lease, tolerant);
      }
    }
  }

  /** Two heartbeat intervals fit the lease: the deciding condition, which the settings alone tell. */
  predicate ToleratesOneMiss(s: JobSettings) {
    2.0 * s.heartbeatInterval <= s.leaseSeconds as real
  }

  /** With any configuration: from the claim on, timely heartbeats keep the job, with single misses when two intervals fit the lease. */
  lemma ClaimedJobSurvives(env: Environment, job: Job, moments: seq<Moment>, w: WorkerId, claimedAt: Time, tolerant: bool)
    requires Claimable(job, claimedAt)
    requires var s := GetSettings(env);
             && (tolerant ==> ToleratesOneMiss(s))
             && OnSchedule(moments, claimedAt, false, w, s.heartbeatInterval, tolerant)
    ensures var lease := GetSettings(env).leaseSeconds as real;
            var claimed := ApplyRow(job, Claimed(w, claimedAt, lease));
            OwnedBy(Play(claimed, moments, w, lease), w)
  {
    var s := GetSettings(env);
    var lease := s.leaseSeconds as real;
    TimelyOwnerKeepsItsRow(ApplyRow(job, Claimed(w, claimedAt, lease)), moments, claimedAt, false, w,
                           s.heartbeatInterval, lease, tolerant);
  }

  /** The owner misses its first beat, and recovery passes when the second is due. */
  function OneMiss(claimedAt: Time, interval: real): seq<Moment> {
    [Beat(claimedAt + interval, false), Other(claimedAt + 2.0 * interval, Recovered(claimedAt + 2.0 * interval))]
  }

  /** When two intervals exceed the lease, one missed beat can cost any job. */
  lemma OneMissLosesTheJob(s: JobSettings, job: Job, w: WorkerId, claimedAt: Time)
    requires s.heartbeatInterval > 0.0 && !ToleratesOneMiss(s) && Claimable(job, claimedAt)
    ensures OnSchedule(OneMiss(claimedAt, s.heartbeatInterval), claimedAt, false, w, s.heartbeatInterval, true)
    ensures var lease := s.leaseSeconds as real;
            !OwnedBy(Play(ApplyRow(job, Claimed(w, claimedAt, lease)), OneMiss(claimedAt, s.heartbeatInterval), w, lease), w)
  {
    var lease, due := s.leaseSeconds as real, claimedAt + 2.0 * s.heartbeatInterval;
    var moments := OneMiss(claimedAt, s.heartbeatInterval);
    var claimed := ApplyRow(job, Claimed(w, claimedAt, lease));
    assert moments[1..] == [Other(due, Recovered(due))] && moments[1..][1..] == [];
    assert Play(claimed, moments, w, lease) == Play(claimed, moments[1..], w, lease) == Recover(claimed, due);
  }

  /** Every claimed job survives every schedule with single misses. */
  ghost predicate SurvivesSingleMisses(s: JobSettings) {
    forall job: Job, moments: seq<Moment>, w: WorkerId, claimedAt: Time ::
      Claimable(job, claimedAt) && OnSchedule(moments, claimedAt, false, w, s.heartbeatInterval, true) ==>
        OwnedBy(Play(ApplyRow(job, Claimed(w, claimedAt, s.leaseSeconds as real)), moments, w, s.leaseSeconds as real), w)
  }

  /**
    For every configuration, single missed heartbeats are survived if and only if two intervals fit the
    lease; only a lease of one second with an interval over half a second does not.
  */
  lemma SingleMissesSurvivedIff(env: Environment)
    ensures var s := GetSettings(env);
            && (SurvivesSingleMisses(s) <==> ToleratesOneMiss(s))
            && (ToleratesOneMiss(s) <==> s.leaseSeconds >= 2 || s.heartbeatInterval <= 0.5)
  {
    var s := GetSettings(env);
    if ToleratesOneMiss(s) {
      forall job: Job, moments: seq<Moment>, w: WorkerId, claimedAt: Time
        | Claimable(job, claimedAt) && OnSchedule(moments, claimedAt, false, w, s.heartbeatInterval, true)
        ensures OwnedBy(Play(ApplyRow(job, Claimed(w, claimedAt, s.leaseSeconds as real)), moments, w, s.leaseSeconds as real), w)
      {
        ClaimedJobSurvives(env, job, moments, w, claimedAt, true);
      }
    } else {
      var job := NewJob(1, 0, 0.0);
      OneMissLosesTheJob(s, job, 0, 0.0);
      assert Claimable(job, 0.0);
    }
  }

  /** The bad case exists: a one-second lease with the default heartbeat. */
  lemma OneSecondLeaseToleratesNoMiss()
    ensures var s := GetSettings(Environment(Some(1), None, None, None, None, None));
            s.heartbeatInterval == 1.0 && !SurvivesSingleMisses(s)
  {
    SingleMissesSurvivedIff(Environment(Some(1), None, None, None, None, None));
  }
}
