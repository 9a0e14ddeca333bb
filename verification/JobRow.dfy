/**
  One row of the simulation-job queue and what each store function does to it.
  The functions are on values; `JobStore` proves its in-place methods against
  them and `JobProtocol` interleaves them.
  Source: backend/services/simulation_job_store.py
*/
module JobRow {
  import opened Arithmetic
  import opened Wrappers

  type WorkerId = nat
  type Time = real

  datatype Status = Queued | Running | Succeeded | Failed | Cancelled

  datatype FailureType = UserCancelled | WorkerLost | Reported(code: nat)

  datatype Message = LeaseExpiredFinal | LeaseExpiredRetry | JobCancelled | Text(id: nat)

  /** The JSON column: a finished attempt's document, or an optimizer's progress. */
  datatype ResultJson = Document(content: nat) | Progress(content: nat)

  datatype Job = Job(
    status: Status,
    attempts: nat,
    maxAttempts: nat,
    nextAttemptAt: Option<Time>,
    workerId: Option<WorkerId>,
    heartbeatAt: Option<Time>,
    leaseExpiresAt: Option<Time>,
    cancelRequested: bool,
    failureType: Option<FailureType>,
    errorMessage: Option<Message>,
    result: Option<ResultJson>,
    resultRunId: Option<nat>,
    priority: int,
    queuedAt: Time,
    startedAt: Option<Time>,
    finishedAt: Option<Time>,
    updatedAt: Time)

  predicate Terminal(status: Status) {
    status in {Succeeded, Failed, Cancelled}
  }

  /** One write of one store function to one row. */
  datatype RowEvent =
    | Untouched
    | Claimed(worker: WorkerId, now: Time, lease: Time)
    | Beaten(worker: WorkerId, now: Time, lease: Time)
    | LateBeat(now: Time, lease: Time)
    | CancelAsked(now: Time)
    | Recovered(now: Time)
    | ProgressMade(caller: Option<WorkerId>, progress: nat, now: Time)
    | LateProgress(progress: nat, now: Time)
    | AttemptFailed(caller: Option<WorkerId>, report: FailureReport, policy: RetryPolicy, now: Time)
    | Finished(caller: Option<WorkerId>, status: Status, outcome: FinishReport, now: Time)
    | RunSaved(run: nat, now: Time)

  datatype FailureReport = FailureReport(message: Message, kind: FailureType, retryable: bool, document: Option<nat>)

  datatype FinishReport = FinishReport(
    document: Option<nat>, run: Option<nat>, message: Option<Message>, kind: Option<FailureType>)

  datatype RetryPolicy = RetryPolicy(baseSeconds: nat, maxSeconds: nat)

  function NewJob(maxAttempts: nat, priority: int, now: Time): Job {
    Job(Queued, 0, maxAttempts, None, None, None, None, false, None, None, None, None,
        priority, now, None, None, now)
  }

  /** The exponential backoff of `calculate_retry_delay_seconds`. */
  function RetryDelay(attempt: int, policy: RetryPolicy): nat {
    var exponent: nat := if attempt - 1 > 0 then attempt - 1 else 0;
    var delay := policy.baseSeconds * Power(2, exponent);
    if policy.maxSeconds <= delay then policy.maxSeconds else delay
  }

  /** The WHERE clause of `claim_next_simulation_job`. */
  predicate Claimable(job: Job, now: Time) {
    && job.status == Queued
    && !job.cancelRequested
    && job.attempts < job.maxAttempts
    && (job.nextAttemptAt.None? || job.nextAttemptAt.value <= now)
  }

  /** The WHERE clause of `recover_expired_simulation_jobs`; the comparison is strict. */
  predicate Expired(job: Job, now: Time) {
    job.status == Running && (job.leaseExpiresAt.None? || job.leaseExpiresAt.value < now)
  }

  predicate OwnedBy(job: Job, worker: WorkerId) {
    job.status == Running && job.workerId == Some(worker)
  }

  /** The fencing test `_worker_can_update`; no worker ID means an administrative call. */
  predicate CanUpdate(job: Job, caller: Option<WorkerId>) {
    job.status == Running && (caller.None? || job.workerId == caller)
  }

  function Claim(job: Job, worker: WorkerId, now: Time, lease: Time): Job {
    Renew(job, now, lease).(status := Running, startedAt := Some(now), attempts := job.attempts + 1,
                            workerId := Some(worker), nextAttemptAt := None, failureType := None)
  }

  function Renew(job: Job, now: Time, lease: Time): Job {
    job.(heartbeatAt := Some(now), leaseExpiresAt := Some(now + lease), updatedAt := now)
  }

  function AskCancel(job: Job, now: Time): Job {
    var asked :=
      match job.status
      case Queued => job.(status := Cancelled, cancelRequested := true,
                          failureType := Some(UserCancelled), finishedAt := Some(now))
      case Running => job.(cancelRequested := true)
      case _ => job;
    asked.(updatedAt := now)
  }

  /** The worker and its lease are taken off the row. */
  function Release(job: Job, now: Time): Job {
    job.(workerId := None, heartbeatAt := None, leaseExpiresAt := None, updatedAt := now)
  }

  function Recover(job: Job, now: Time): Job {
    var freed := Release(job, now).(result := None);
    if job.cancelRequested then
      freed.(status := Cancelled, failureType := Some(UserCancelled), finishedAt := Some(now))
    else if job.attempts >= job.maxAttempts then
      freed.(status := Failed, failureType := Some(WorkerLost), errorMessage := Some(LeaseExpiredFinal),
             finishedAt := Some(now))
    else
      freed.(status := Queued, failureType := Some(WorkerLost), errorMessage := Some(LeaseExpiredRetry),
             nextAttemptAt := Some(now), startedAt := None, finishedAt := None)
  }

  function WriteProgress(job: Job, progress: nat, now: Time): Job {
    job.(result := Some(Progress(progress)), updatedAt := now)
  }

  function DocumentOf(content: Option<nat>): Option<ResultJson> {
    match content
    case None => None
    case Some(c) => Some(Document(c))
  }

  function FailAttempt(job: Job, report: FailureReport, policy: RetryPolicy, now: Time): Job {
    var freed := Release(job, now).(result := DocumentOf(report.document), errorMessage := Some(report.message),
                                    failureType := Some(report.kind));
    if job.cancelRequested then
      freed.(status := Cancelled, failureType := Some(UserCancelled), finishedAt := Some(now))
    else if report.retryable && job.attempts < job.maxAttempts then
      freed.(status := Queued, nextAttemptAt := Some(now + RetryDelay(job.attempts, policy) as real),
             startedAt := None, finishedAt := None)
    else
      freed.(status := Failed, finishedAt := Some(now))
  }

  const CANCELLED_REPORT := FinishReport(None, None, Some(JobCancelled), Some(UserCancelled))

  function Finish(job: Job, status: Status, outcome: FinishReport, now: Time): Job {
    var overridden := job.cancelRequested && status != Cancelled;
    var finalStatus := if overridden then Cancelled else status;
    var final := if overridden then CANCELLED_REPORT else outcome;
    Release(job, now).(status := finalStatus, result := DocumentOf(final.document), resultRunId := final.run,
                       errorMessage := final.message, failureType := final.kind, nextAttemptAt := None,
                       finishedAt := Some(now))
  }

  /** What one event leaves of a row, each function's own guard included. */
  function ApplyRow(job: Job, event: RowEvent): Job {
    match event
    case Untouched => job
    case Claimed(w, now, lease) => if Claimable(job, now) then Claim(job, w, now, lease) else job
    case Beaten(w, now, lease) => if OwnedBy(job, w) then Renew(job, now, lease) else job
    case LateBeat(now, lease) => Renew(job, now, lease)
    case CancelAsked(now) => AskCancel(job, now)
    case Recovered(now) => if Expired(job, now) then Recover(job, now) else job
    case ProgressMade(caller, p, now) => if CanUpdate(job, caller) then WriteProgress(job, p, now) else job
    case LateProgress(p, now) => WriteProgress(job, p, now)
    case AttemptFailed(caller, report, policy, now) =>
      if CanUpdate(job, caller) then FailAttempt(job, report, policy, now) else job
    case Finished(caller, status, outcome, now) =>
      if CanUpdate(job, caller) then Finish(job, status, outcome, now) else job
    case RunSaved(run, now) => job.(resultRunId := Some(run), updatedAt := now)
  }

  /** What `is_simulation_job_cancel_requested` answers: lost ownership also reads as "stop". */
  predicate ShouldStop(job: Option<Job>, caller: Option<WorkerId>) {
    || job.None?
    || job.value.status != Running
    || (caller.Some? && job.value.workerId != caller)
    || job.value.cancelRequested
  }
}
