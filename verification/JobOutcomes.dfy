/**
  What the calls that start, end or cancel an attempt leave of a row, told column by column: which
  status follows from which, what is recorded, when a retry is due, and what stays as it was.
  Source: backend/services/simulation_job_store.py
*/
module JobOutcomes {
  import opened Arithmetic
  import opened Wrappers
  import opened JobRow

  /** The columns that no call after the creation of a row ever writes. */
  predicate SameOrigin(before: Job, after: Job) {
    after.maxAttempts == before.maxAttempts && after.priority == before.priority && after.queuedAt == before.queuedAt
  }

  predicate WithoutLease(after: Job) {
    after.workerId.None? && after.heartbeatAt.None? && after.leaseExpiresAt.None?
  }

  /** A new attempt of `w`: one more than before, on a lease from `now`, with nothing left of an earlier failure but its text. */
  predicate ClaimedAs(before: Job, after: Job, w: WorkerId, now: Time, lease: Time) {
    && SameOrigin(before, after)
    && after.status == Running && after.attempts == before.attempts + 1 && after.workerId == Some(w)
    && after.heartbeatAt == Some(now) && after.leaseExpiresAt == Some(now + lease)
    && after.startedAt == Some(now) && after.updatedAt == now && after.nextAttemptAt.None? && after.failureType.None?
    && after.errorMessage == before.errorMessage && after.result == before.result && after.resultRunId == before.resultRunId
    && after.cancelRequested == before.cancelRequested && after.finishedAt == before.finishedAt
  }

  /** A queued job is cancelled, a running one is told to stop, and an ended one keeps its outcome. */
  predicate AskedAs(before: Job, after: Job, now: Time) {
    && SameOrigin(before, after)
    && (after.status == Cancelled <==> before.status in {Queued, Cancelled})
    && (after.status != Cancelled ==> after.status == before.status)
    && (after.cancelRequested <==> before.cancelRequested || before.status in {Queued, Running})
    && after.failureType == (if before.status == Queued then Some(UserCancelled) else before.failureType)
    && after.finishedAt == (if before.status == Queued then Some(now) else before.finishedAt)
    && after.updatedAt == now && after.attempts == before.attempts && after.nextAttemptAt == before.nextAttemptAt
    && after.workerId == before.workerId && after.heartbeatAt == before.heartbeatAt && after.leaseExpiresAt == before.leaseExpiresAt
    && after.errorMessage == before.errorMessage && after.result == before.result
    && after.resultRunId == before.resultRunId && after.startedAt == before.startedAt
  }

  /** When a failed attempt may be tried again: the base delay, doubled with every earlier attempt, up to the cap. */
  function RetryTime(now: Time, attempts: nat, policy: RetryPolicy): Time {
    var delay := policy.baseSeconds * Power(2, if attempts > 1 then attempts - 1 else 0);
    now + (if delay < policy.maxSeconds then delay else policy.maxSeconds) as real
  }

  /**
    A failed attempt. The job is cancelled if that was requested; otherwise it is queued again if and
    only if the failure is retryable and attempts are left; otherwise it has failed.
  */
  predicate FailedAs(before: Job, after: Job, report: FailureReport, policy: RetryPolicy, now: Time) {
    && SameOrigin(before, after) && WithoutLease(after) && after.attempts == before.attempts
    && after.cancelRequested == before.cancelRequested && after.resultRunId == before.resultRunId
    && (after.status == Cancelled <==> before.cancelRequested)
    && (after.status == Queued <==> !before.cancelRequested && report.retryable && before.attempts < before.maxAttempts)
    && (after.status == Failed <==> !before.cancelRequested && !(report.retryable && before.attempts < before.maxAttempts))
    && after.failureType == Some(if before.cancelRequested then UserCancelled else report.kind)
    && after.errorMessage == Some(report.message)
    && (after.result.Some? <==> report.document.Some?)
    && (report.document.Some? ==> after.result == Some(Document(report.document.value)))
    && after.nextAttemptAt == (if after.status == Queued then Some(RetryTime(now, before.attempts, policy)) else before.nextAttemptAt)
    && after.startedAt == (if after.status == Queued then None else before.startedAt)
    && after.finishedAt == (if after.status == Queued then None else Some(now))
    && after.updatedAt == now
  }

  /**
    A reported ending. Status, document, run, message and kind are as reported, unless a cancel request
    overrides an ending that is not itself a cancellation: then nothing of the report is recorded.
  */
  predicate FinishedAs(before: Job, after: Job, status: Status, outcome: FinishReport, now: Time) {
    && SameOrigin(before, after) && WithoutLease(after) && after.attempts == before.attempts
    && after.cancelRequested == before.cancelRequested && after.startedAt == before.startedAt
    && after.nextAttemptAt.None? && after.finishedAt == Some(now) && after.updatedAt == now
    && (!before.cancelRequested || status == Cancelled ==>
          && after.status == status && after.resultRunId == outcome.run
          && after.errorMessage == outcome.message && after.failureType == outcome.kind
          && (after.result.Some? <==> outcome.document.Some?)
          && (outcome.document.Some? ==> after.result == Some(Document(outcome.document.value))))
    && (before.cancelRequested && status != Cancelled ==>
          && after.status == Cancelled && after.resultRunId.None? && after.result.None?
          && after.errorMessage == Some(JobCancelled) && after.failureType == Some(UserCancelled))
  }

  /**
    An attempt taken back after its lease ran out. The job is cancelled if that was requested;
    otherwise it has failed if and only if this was the last attempt; otherwise it is queued and due at once.
  */
  predicate RecoveredAs(before: Job, after: Job, now: Time) {
    && SameOrigin(before, after) && WithoutLease(after) && after.attempts == before.attempts
    && after.cancelRequested == before.cancelRequested && after.resultRunId == before.resultRunId && after.result.None?
    && (after.status == Cancelled <==> before.cancelRequested)
    && (after.status == Failed <==> !before.cancelRequested && before.attempts >= before.maxAttempts)
    && (after.status == Queued <==> !before.cancelRequested && before.attempts < before.maxAttempts)
    && after.failureType == Some(if before.cancelRequested then UserCancelled else WorkerLost)
    && after.errorMessage == (match after.status
                              case Failed => Some(LeaseExpiredFinal)
                              case Queued => Some(LeaseExpiredRetry)
                              case _ => before.errorMessage)
    && after.nextAttemptAt == (if after.status == Queued then Some(now) else before.nextAttemptAt)
    && after.startedAt == (if after.status == Queued then None else before.startedAt)
    && after.finishedAt == (if after.status == Queued then None else Some(now))
    && after.updatedAt == now
  }

  /** Everything an event does to a row: nothing unless the row is in the state the call asks for. */
  predicate LeavesRow(before: Job, event: RowEvent, after: Job) {
    match event
    case Claimed(w, now, lease) =>
      if before.status == Queued && !before.cancelRequested && before.attempts < before.maxAttempts
         && (before.nextAttemptAt.Some? ==> before.nextAttemptAt.value <= now)
      then ClaimedAs(before, after, w, now, lease) else after == before
    case CancelAsked(now) => AskedAs(before, after, now)
    case Recovered(now) =>
      if before.status == Running && (before.leaseExpiresAt.Some? ==> before.leaseExpiresAt.value < now)
      then RecoveredAs(before, after, now) else after == before
    case AttemptFailed(caller, report, policy, now) =>
      if before.status == Running && (caller.Some? ==> before.workerId == caller)
      then FailedAs(before, after, report, policy, now) else after == before
    case Finished(caller, status, outcome, now) =>
      if before.status == Running && (caller.Some? ==> before.workerId == caller)
      then FinishedAs(before, after, status, outcome, now) else after == before
    case _ => true
  }

  lemma FailureOutcome(job: Job, report: FailureReport, policy: RetryPolicy, now: Time)
    ensures FailedAs(job, FailAttempt(job, report, policy, now), report, policy, now)
  {
    hide Power;
  }

  lemma FinishOutcome(job: Job, status: Status, outcome: FinishReport, now: Time)
    ensures FinishedAs(job, Finish(job, status, outcome, now), status, outcome, now)
  {
  }

  lemma RecoveryOutcome(job: Job, now: Time)
    ensures RecoveredAs(job, Recover(job, now), now)
  {
  }

  lemma EventOutcome(job: Job, event: RowEvent)
    ensures LeavesRow(job, event, ApplyRow(job, event))
  {
    hide FailAttempt, Finish, Recover, FailedAs, FinishedAs, RecoveredAs;
    match event {
      case AttemptFailed(_, report, policy, now) => FailureOutcome(job, report, policy, now);
      case Finished(_, status, outcome, now) => FinishOutcome(job, status, outcome, now);
      case Recovered(now) => RecoveryOutcome(job, now);
      case _ =>
    }
  }

  lemma CapDoubled(delay: nat, max: nat)
    ensures var wait := if delay < max then delay else max;
            (if 2 * delay < max then 2 * delay else max) == if 2 * wait < max then 2 * wait else max
  {
  }

  /** Every further attempt waits twice as long as the one before, until the cap is reached. */
  lemma RetriesDouble(now: Time, attempts: nat, policy: RetryPolicy)
    requires attempts >= 1
    ensures RetryTime(now, 1, policy) - now
         == (if policy.baseSeconds < policy.maxSeconds then policy.baseSeconds else policy.maxSeconds) as real
    ensures var wait, next := RetryTime(now, attempts, policy) - now, RetryTime(now, attempts + 1, policy) - now;
            next == if 2.0 * wait < policy.maxSeconds as real then 2.0 * wait else policy.maxSeconds as real
  {
    hide Power;
    PowerStep(2, 0);
    PowerStep(2, attempts);
    var p := Power(2, attempts - 1);
    assert policy.baseSeconds * (2 * p) == 2 * (policy.baseSeconds * p);
    CapDoubled(policy.baseSeconds * p, policy.maxSeconds);
  }
}
