/**
  Lease timing over runs of the queue: a worker whose heartbeats keep time holds its row, whatever all
  other workers, recovery passes and API calls do meanwhile.
  Source: backend/services/simulation_worker.py, backend/services/simulation_job_store.py, backend/core/config.py
*/
module LeaseRuns {
  import opened Wrappers
  import opened JobRow
  import opened JobStore
  import opened JobProtocol
  import opened JobRuns
  import LeaseTiming

  /** A heartbeat of `w`, or the write of one that read the row earlier. */
  predicate Renews(step: Step, id: JobId, w: WorkerId) {
    (step.Beat? && step.id == id && step.worker == w) || WritesBeat(step, id)
  }

  /** When the row of `id` was last renewed before state `n`; the time of state `i` if it has not been since. */
  function LastRenewal(states: seq<System>, steps: seq<Step>, i: nat, n: nat, id: JobId, w: WorkerId): Time
    requires i <= n < |states| && |states| == |steps| + 1
  {
    if n == i then states[i].now
    else if Renews(steps[n - 1], id, w) then states[n - 1].now
    else LastRenewal(states, steps, i, n - 1, id, w)
  }

  /** `w` does not end its attempt, the row is not deleted, and whoever renews its lease grants at least `lease`. */
  predicate GoesOn(s: System, step: Step, id: JobId, w: WorkerId, lease: Time)
    requires Enabled(s, step)
  {
    && !(EndsAttempt(step, w) && s.workers[w].job == id)
    && step != DeleteWrite(id)
    && (Renews(step, id, w) ==> step.lease >= lease)
  }

  ghost predicate KeepsGoing(states: seq<System>, steps: seq<Step>, i: nat, k: nat, id: JobId, w: WorkerId, lease: Time)
    requires IsRun(states, steps) && k <= |steps|
  {
    forall n :: i <= n < k ==> GoesOn(states[n], steps[n], id, w, lease)
  }

  lemma TimeGoesForward(s: System, step: Step)
    requires Enabled(s, step)
    ensures s.now <= Next(s, step).now && (!step.Tick? ==> Next(s, step).now == s.now)
  {
    hide NextJobs, NextHistory, NextWorker, EventFor;
  }

  lemma {:induction false} RenewalIsPast(states: seq<System>, steps: seq<Step>, i: nat, n: nat, id: JobId, w: WorkerId)
    requires IsRun(states, steps) && i <= n < |states|
    ensures LastRenewal(states, steps, i, n, id, w) <= states[n].now
  {
    hide Next, Enabled;
    if i < n {
      RenewalIsPast(states, steps, i, n - 1, id, w);
      TimeGoesForward(states[n - 1], steps[n - 1]);
    }
  }

  /** The steps behind the events that could cost an owner its row or set its lease. */
  lemma EventSources(s: System, step: Step, id: JobId)
    requires Enabled(s, step)
    ensures var event := EventFor(s, step, id);
            && (event.Recovered? ==> step.RecoverStep? && event.now == s.now)
            && (event.Finished? || event.AttemptFailed? ==>
                  event.caller.Some? && EndsAttempt(step, event.caller.value) && s.workers[event.caller.value].job == id)
            && (event.Beaten? <==> step.Beat? && step.id == id)
            && (event.Beaten? ==> event.worker == step.worker && event.now == s.now && event.lease == step.lease)
            && (event.LateBeat? <==> WritesBeat(step, id))
            && (event.LateBeat? ==> event.now == s.now && event.lease == step.lease)
  {
  }

  /** An event that neither ends the owner's attempt nor recovers an expired row leaves the owner a lease of its own or the new one. */
  lemma OwnerStays(job: Job, event: RowEvent, attempt: nat, w: WorkerId)
    requires Legitimate(job, event, attempt) && OwnedBy(job, w) && job.leaseExpiresAt.Some?
    requires event.Recovered? ==> event.now <= job.leaseExpiresAt.value
    requires event.Finished? || event.AttemptFailed? ==> event.caller != Some(w)
    ensures var after := ApplyRow(job, event);
            && OwnedBy(after, w) && after.attempts == job.attempts
            && after.leaseExpiresAt ==
                 if event.LateBeat? || (event.Beaten? && event.worker == w) then Some(event.now + event.lease) else job.leaseExpiresAt
  {
  }

  /** Attempt `a` of `w` holds the row, on a lease that lasts at least until `until`. */
  predicate HoldsUntil(s: System, id: JobId, w: WorkerId, a: nat, until: Time) {
    Holds(s, id, w, a) && s.jobs[id].leaseExpiresAt.Some? && s.jobs[id].leaseExpiresAt.value >= until
  }

  lemma HeldStep(states: seq<System>, steps: seq<Step>, n: nat, id: JobId, w: WorkerId, a: nat, lease: Time, renewed: Time)
    requires IsRun(states, steps) && n < |steps| && GoesOn(states[n], steps[n], id, w, lease)
    requires HoldsUntil(states[n], id, w, a, renewed + lease) && renewed <= states[n].now
    requires steps[n].RecoverStep? ==> states[n].now <= renewed + lease
    ensures HoldsUntil(states[n + 1], id, w, a, (if Renews(steps[n], id, w) then states[n].now else renewed) + lease)
  {
    hide ApplyRow, EventFor, AttemptOf, Legitimate, RowInv;
    var s, step := states[n], steps[n];
    RunInv(states, steps, n);
    OnlyDeletionRemoves(s, step, id);
    RunStep(states, steps, n, id);
    EventSources(s, step, id);
    OwnerStays(s.jobs[id], EventFor(s, step, id), AttemptOf(s, step), w);
  }

  lemma OnlyDeletionRemoves(s: System, step: Step, id: JobId)
    requires Enabled(s, step) && id in s.jobs && step != DeleteWrite(id)
    ensures id in Next(s, step).jobs
  {
    hide NextHistory, NextWorker, EventFor, ApplyRow;
  }

  /**
    An attempt that keeps going loses its row only to a recovery pass that comes more than a lease after
    its last heartbeat; as long as none does, it holds the row.
  */
  lemma {:induction false} LostOnlyWhenLate(
    states: seq<System>, steps: seq<Step>, i: nat, k: nat, id: JobId, w: WorkerId, a: nat, lease: Time)
    requires IsRun(states, steps) && i <= k <= |steps|
    requires HoldsUntil(states[i], id, w, a, states[i].now + lease) && KeepsGoing(states, steps, i, k, id, w, lease)
    ensures || HoldsUntil(states[k], id, w, a, LastRenewal(states, steps, i, k, id, w) + lease)
            || exists n :: i <= n < k && LateRecovery(states, steps, i, n, id, w, a, lease)
  {
    hide Next, Enabled, GoesOn, HoldsUntil, Holds;
    if i < k {
      LostOnlyWhenLate(states, steps, i, k - 1, id, w, a, lease);
      RenewalIsPast(states, steps, i, k - 1, id, w);
      var renewed := LastRenewal(states, steps, i, k - 1, id, w);
      if HoldsUntil(states[k - 1], id, w, a, renewed + lease) && !LateRecovery(states, steps, i, k - 1, id, w, a, lease) {
        HoldsOf(states[k - 1], id, w, a, renewed + lease);
        HeldStep(states, steps, k - 1, id, w, a, lease, renewed);
      }
    }
  }

  lemma HoldsOf(s: System, id: JobId, w: WorkerId, a: nat, until: Time)
    requires HoldsUntil(s, id, w, a, until)
    ensures Holds(s, id, w, a)
  {
  }

  /** At step `n` a recovery pass meets the row of attempt `a` more than a lease after its last heartbeat. */
  predicate LateRecovery(states: seq<System>, steps: seq<Step>, i: nat, n: nat, id: JobId, w: WorkerId, a: nat, lease: Time)
    requires i <= n < |steps| && |states| == |steps| + 1
  {
    steps[n].RecoverStep? && Holds(states[n], id, w, a) && states[n].now > LastRenewal(states, steps, i, n, id, w) + lease
  }

  /** Recovery passes never come more than `gap` after the last heartbeat. */
  ghost predicate BeatsKeepTime(states: seq<System>, steps: seq<Step>, i: nat, k: nat, id: JobId, w: WorkerId, gap: Time)
    requires i <= k <= |steps| && |states| == |steps| + 1
  {
    forall n :: i <= n < k && steps[n].RecoverStep? ==> states[n].now <= LastRenewal(states, steps, i, n, id, w) + gap
  }

  lemma ClaimStartsLease(s: System, step: Step)
    requires Enabled(s, step) && step.ClaimJob?
    ensures HoldsUntil(Next(s, step), step.id, step.worker, s.jobs[step.id].attempts + 1, Next(s, step).now + step.lease)
  {
  }

  /**
    For every configuration and every run: a claimed job whose heartbeats are at most an interval apart
    stays with its worker until it reports an outcome or the row is deleted. If two intervals fit the
    lease, heartbeats up to two intervals apart do.
  */
  lemma TimelyWorkerKeepsItsJob(
    env: LeaseTiming.Environment, states: seq<System>, steps: seq<Step>, c: nat, k: nat, tolerant: bool)
    requires IsRun(states, steps) && c < k <= |steps| && steps[c].ClaimJob?
    requires var s := LeaseTiming.GetSettings(env);
             && steps[c].lease == s.leaseSeconds as real
             && (tolerant ==> LeaseTiming.ToleratesOneMiss(s))
             && KeepsGoing(states, steps, c + 1, k, steps[c].id, steps[c].worker, steps[c].lease)
             && BeatsKeepTime(states, steps, c + 1, k, steps[c].id, steps[c].worker,
                              if tolerant then 2.0 * s.heartbeatInterval else s.heartbeatInterval)
    ensures steps[c].id in states[c].jobs
    ensures Holds(states[k], steps[c].id, steps[c].worker, states[c].jobs[steps[c].id].attempts + 1)
  {
    hide Next, GoesOn;
    assert Enabled(states[c], steps[c]) && states[c + 1] == Next(states[c], steps[c]);
    ClaimStartsLease(states[c], steps[c]);
    LostOnlyWhenLate(states, steps, c + 1, k, steps[c].id, steps[c].worker, states[c].jobs[steps[c].id].attempts + 1, steps[c].lease);
  }
}
