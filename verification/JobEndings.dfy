/**
  How jobs end over whole runs: what each ending step records, why a job has failed, and what a
  succeeded job holds.
  Source: backend/services/simulation_job_store.py, backend/services/simulation_worker.py
*/
module JobEndings {
  import opened Wrappers
  import opened JobRow
  import opened JobStore
  import opened JobOutcomes
  import opened JobProtocol
  import opened JobRuns

  /** The row of `id` in the states before and after step `k` of a run. */
  predicate Survives(states: seq<System>, k: nat, id: JobId)
    requires k + 1 < |states|
  {
    id in states[k].jobs && id in states[k + 1].jobs
  }

  lemma StepLeavesRow(states: seq<System>, steps: seq<Step>, k: nat, id: JobId)
    requires IsRun(states, steps) && k < |steps| && id in states[k].jobs && steps[k] != DeleteWrite(id)
    ensures Survives(states, k, id)
    ensures LeavesRow(states[k].jobs[id], EventFor(states[k], steps[k], id), states[k + 1].jobs[id])
  {
    hide ApplyRow, LeavesRow, EventFor, RowInv, Legitimate, Next;
    RunInv(states, steps, k);
    RowStays(states[k], steps[k], id);
    RunStep(states, steps, k, id);
    EventOutcome(states[k].jobs[id], EventFor(states[k], steps[k], id));
  }

  lemma RowStays(s: System, step: Step, id: JobId)
    requires Enabled(s, step) && id in s.jobs && step != DeleteWrite(id)
    ensures id in Next(s, step).jobs
  {
    hide NextHistory, NextWorker, EventFor, ApplyRow;
  }

  /** What a worker's ending step does to the row it owns, in every run. */
  lemma WorkersEndAsReported(states: seq<System>, steps: seq<Step>, k: nat, w: WorkerId)
    requires IsRun(states, steps) && k < |steps| && EndsAttempt(steps[k], w)
    ensures w in states[k].workers && !states[k].workers[w].Idle?
    ensures var id := states[k].workers[w].job;
            id in states[k].jobs && states[k].jobs[id].status == Running && states[k].jobs[id].workerId == Some(w) ==>
              && Survives(states, k, id)
              && var before, after := states[k].jobs[id], states[k + 1].jobs[id];
              match steps[k]
              case Fail(_, report, policy) => FailedAs(before, after, report, policy, states[k].now)
              case Succeed(_, document, _) =>
                FinishedAs(before, after, Succeeded, FinishReport(Some(document), None, None, None), states[k].now)
              case _ => FinishedAs(before, after, Cancelled, FinishReport(None, None, Some(JobCancelled), Some(UserCancelled)), states[k].now)
  {
    hide FailedAs, FinishedAs, Next;
    assert Enabled(states[k], steps[k]);
    var id := states[k].workers[w].job;
    if id in states[k].jobs {
      StepLeavesRow(states, steps, k, id);
    }
  }

  /** What cancel calls, claims and recovery passes do to the rows they reach, in every run. */
  lemma CallsActOnRows(states: seq<System>, steps: seq<Step>, k: nat, id: JobId)
    requires IsRun(states, steps) && k < |steps| && id in states[k].jobs
    ensures steps[k] == CancelCall(id) ==>
              Survives(states, k, id) && AskedAs(states[k].jobs[id], states[k + 1].jobs[id], states[k].now)
    ensures steps[k].ClaimJob? && steps[k].id == id ==>
              Survives(states, k, id)
              && ClaimedAs(states[k].jobs[id], states[k + 1].jobs[id], steps[k].worker, states[k].now, steps[k].lease)
    ensures steps[k].RecoverStep? && id !in steps[k].locked ==>
              && Survives(states, k, id)
              && var before, after := states[k].jobs[id], states[k + 1].jobs[id];
              if before.status == Running && (before.leaseExpiresAt.Some? ==> before.leaseExpiresAt.value < states[k].now)
              then RecoveredAs(before, after, states[k].now) else after == before
  {
    hide AskedAs, ClaimedAs, RecoveredAs, Next;
    assert Enabled(states[k], steps[k]);
    if steps[k] != DeleteWrite(id) {
      StepLeavesRow(states, steps, k, id);
    }
  }

  // ---------- Why a job has failed

  /** Step `j` reported a failure of job `id` that no further attempt could mend. */
  predicate PermanentFailure(s: System, step: Step, id: JobId) {
    step.Fail? && !step.report.retryable && step.worker in s.workers && !s.workers[step.worker].Idle?
    && s.workers[step.worker].job == id
  }

  lemma FailureEvents(s: System, step: Step, id: JobId)
    requires Enabled(s, step)
    ensures EventFor(s, step, id).AttemptFailed? && !EventFor(s, step, id).report.retryable ==> PermanentFailure(s, step, id)
    ensures EventFor(s, step, id).Finished? ==> EventFor(s, step, id).status != Failed
  {
  }

  lemma BecomesFailed(job: Job, event: RowEvent)
    requires job.status != Failed && ApplyRow(job, event).status == Failed
    requires event.Finished? ==> event.status != Failed
    ensures ApplyRow(job, event).attempts >= ApplyRow(job, event).maxAttempts || (event.AttemptFailed? && !event.report.retryable)
  {
    hide FailAttempt, FailedAs;
    if event.AttemptFailed? {
      FailureOutcome(job, event.report, event.policy, event.now);
      FailedColumns(job, FailAttempt(job, event.report, event.policy, event.now), event.report, event.policy, event.now);
    }
  }

  lemma FailedColumns(before: Job, after: Job, report: FailureReport, policy: RetryPolicy, now: Time)
    requires FailedAs(before, after, report, policy, now)
    ensures after.attempts == before.attempts && after.maxAttempts == before.maxAttempts
    ensures after.status == Failed ==> !report.retryable || before.attempts >= before.maxAttempts
  {
    hide RetryTime;
  }

  /** A failed job has used all its attempts, or one of them reported a failure that is not retryable. */
  lemma {:induction false} FailedForAReason(states: seq<System>, steps: seq<Step>, k: nat, id: JobId)
    requires IsRun(states, steps) && k < |states| && id in states[k].jobs && states[k].jobs[id].status == Failed
    ensures states[k].jobs[id].attempts == states[k].jobs[id].maxAttempts
         || exists j :: 0 <= j < k && PermanentFailure(states[j], steps[j], id)
  {
    hide ApplyRow, EventFor, AttemptOf, Legitimate, Next, PermanentFailure;
    RowsAlwaysConsistent(states, steps, k, id);
    NewRowsAreQueued(states, steps, k, id);
    RunStep(states, steps, k - 1, id);
    var before, event := states[k - 1].jobs[id], EventFor(states[k - 1], steps[k - 1], id);
    if before.status == Failed {
      FailedForAReason(states, steps, k - 1, id);
      EndedRowStep(before, event);
    } else {
      FailureEvents(states[k - 1], steps[k - 1], id);
      BecomesFailed(before, event);
    }
  }

  /** A row that is not queued was there before the last step. */
  lemma NewRowsAreQueued(states: seq<System>, steps: seq<Step>, k: nat, id: JobId)
    requires IsRun(states, steps) && k < |states| && id in states[k].jobs && states[k].jobs[id].status != Queued
    ensures k > 0 && id in states[k - 1].history
  {
    hide ApplyRow, EventFor;
    if k > 0 {
      RunInv(states, steps, k - 1);
    }
  }

  // ---------- What a succeeded job holds

  /** Step `j` reported the success of job `id` with this document, for the worker that owned the row. */
  predicate ReportsSuccess(s: System, step: Step, id: JobId, document: nat) {
    && step.Succeed? && step.document == document && id in s.jobs && OwnedBy(s.jobs[id], step.worker)
    && !s.jobs[id].cancelRequested
  }

  lemma SuccessEvent(s: System, step: Step, id: JobId)
    requires Enabled(s, step) && id in s.jobs && Legitimate(s.jobs[id], EventFor(s, step, id), AttemptOf(s, step))
    requires s.jobs[id].status != Succeeded && ApplyRow(s.jobs[id], EventFor(s, step, id)).status == Succeeded
    ensures step.Succeed? && ReportsSuccess(s, step, id, step.document)
    ensures ApplyRow(s.jobs[id], EventFor(s, step, id)).result == Some(Document(step.document))
  {
  }

  /**
    A succeeded job was reported so by the worker that owned it, without a cancel request; it holds the
    document of that report, unless a late progress write came after it.
  */
  lemma {:induction false} SucceededAsReported(states: seq<System>, steps: seq<Step>, k: nat, id: JobId) returns (j: nat)
    requires IsRun(states, steps) && k < |states| && id in states[k].jobs && states[k].jobs[id].status == Succeeded
    ensures j < k && steps[j].Succeed? && ReportsSuccess(states[j], steps[j], id, steps[j].document)
    ensures states[k].jobs[id].result == Some(Document(steps[j].document))
         || exists i :: j < i < k && WritesProgress(states[i], steps[i], id)
  {
    hide ApplyRow, EventFor, AttemptOf, Legitimate, Next, ReportsSuccess, WritesProgress;
    NewRowsAreQueued(states, steps, k, id);
    RunStep(states, steps, k - 1, id);
    var before, event := states[k - 1].jobs[id], EventFor(states[k - 1], steps[k - 1], id);
    if before.status == Succeeded {
      j := SucceededAsReported(states, steps, k - 1, id);
      EndedRowStep(before, event);
      LateEvents(states[k - 1], steps[k - 1], id);
    } else {
      j := k - 1;
      SuccessEvent(states[j], steps[j], id);
    }
  }
}
