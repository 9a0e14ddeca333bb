/**
  Theorems over whole runs of the queue protocol: fencing, cancellation,
  bounded retries, and exactly when the unlocked writes break a promise.
  Source: backend/services/simulation_job_store.py, backend/services/simulation_worker.py
*/
module JobRuns {
  import opened Arithmetic
  import opened Wrappers
  import opened JobRow
  import opened JobStore
  import opened JobProtocol

  // ---------- The bridge between the protocol's steps and the store's methods

  /** A protocol step does to the table what the store method of the same name was proved to do. */
  lemma StepsAreStoreCalls(s: System, step: Step)
    requires Enabled(s, step)
    ensures match step
            case AddJob(id, max, priority) => NextJobs(s, step) == s.jobs[id := NewJob(max, priority, s.now)]
            case ClaimJob(w, id, lease, _) => NextJobs(s, step) == UpdateRow(s.jobs, id, Claimed(w, s.now, lease))
            case Beat(id, w, lease) => NextJobs(s, step) == UpdateRow(s.jobs, id, Beaten(w, s.now, lease))
            case ReportProgress(w, p) =>
              NextJobs(s, step) == UpdateRow(s.jobs, s.workers[w].job, ProgressMade(Some(w), p, s.now))
            case Succeed(w, doc, _) =>
              NextJobs(s, step) == UpdateRow(s.jobs, s.workers[w].job,
                Finished(Some(w), Succeeded, FinishReport(Some(doc), None, None, None), s.now))
            case Fail(w, report, policy) =>
              NextJobs(s, step) == UpdateRow(s.jobs, s.workers[w].job, AttemptFailed(Some(w), report, policy, s.now))
            case AcknowledgeStop(w) =>
              NextJobs(s, step) == UpdateRow(s.jobs, s.workers[w].job,
                Finished(Some(w), Cancelled, CANCELLED_REPORT, s.now))
            case CancelCall(id) => NextJobs(s, step) == UpdateRow(s.jobs, id, CancelAsked(s.now))
            case RecoverStep(locked) => NextJobs(s, step) == RecoverRows(s.jobs, locked, s.now)
            case SaveWrite(call, run) => NextJobs(s, step) == UpdateRow(s.jobs, s.savesRead[call], RunSaved(run, s.now))
            case DeleteWrite(id) => NextJobs(s, step) == s.jobs - {id}
            case _ => true
  {
  }

  // ---------- Fencing

  lemma {:induction false} RunInv(states: seq<System>, steps: seq<Step>, i: nat)
    requires IsRun(states, steps) && i < |states|
    ensures Inv(states[i])
  {
    if i > 0 {
      RunInv(states, steps, i - 1);
      StepKeepsInv(states[i - 1], steps[i - 1]);
    }
  }

  /** In every reachable state of every run, each row and its history satisfy the row invariant. */
  lemma RowsAlwaysConsistent(states: seq<System>, steps: seq<Step>, i: nat, id: JobId)
    requires IsRun(states, steps) && i < |states| && id in states[i].jobs
    ensures id in states[i].history && RowInv(states[i].jobs[id], states[i].history[id])
  {
    RunInv(states, steps, i);
  }

  /** One step seen from one surviving row. */
  lemma RunStep(states: seq<System>, steps: seq<Step>, i: nat, id: JobId)
    requires IsRun(states, steps) && i < |steps| && id in states[i].history
    ensures id in states[i + 1].history && states[i].history[id].claims <= states[i + 1].history[id].claims
    ensures id in states[i + 1].jobs ==>
              && id in states[i].jobs
              && states[i + 1].jobs[id] == ApplyRow(states[i].jobs[id], EventFor(states[i], steps[i], id))
              && Legitimate(states[i].jobs[id], EventFor(states[i], steps[i], id), AttemptOf(states[i], steps[i]))
  {
    RunInv(states, steps, i);
    HistoryGrows(states[i], steps[i], id);
    if id in states[i + 1].jobs {
      RowMoved(states[i], steps[i], id);
      EventsAreLegitimate(states[i], steps[i], id);
    }
  }

  /** Terminal is forever: a finished job that is not deleted keeps its status. */
  lemma {:induction false} TerminalIsForever(states: seq<System>, steps: seq<Step>, i: nat, k: nat, id: JobId)
    requires IsRun(states, steps) && i <= k < |states|
    requires id in states[i].jobs && Terminal(states[i].jobs[id].status)
    ensures id in states[k].history
    ensures id in states[k].jobs ==> states[k].jobs[id].status == states[i].jobs[id].status
  {
    hide ApplyRow, EventFor, AttemptOf, Next, Legitimate;
    RunInv(states, steps, i);
    if i < k {
      TerminalIsForever(states, steps, i, k - 1, id);
      RunStep(states, steps, k - 1, id);
      if id in states[k].jobs {
        TerminalStays(states[k - 1].jobs[id], EventFor(states[k - 1], steps[k - 1], id));
      }
    }
  }

  lemma EndedIsRecordedOnce(h: History, job: Job, event: RowEvent, attempt: nat)
    requires Terminal(job.status)
    ensures Record(h, job, event, ApplyRow(job, event), attempt).outcomes == h.outcomes
  {
    hide ApplyRow, SameColumns;
    if event.Finished? || event.AttemptFailed? || event.Recovered? || event.CancelAsked? {
      EndsOnlyOnce(job, event);
    }
  }

  lemma OutcomeStep(s: System, step: Step, id: JobId)
    requires Enabled(s, step) && id in s.history
    requires id in s.jobs ==> Terminal(s.jobs[id].status)
    ensures id in Next(s, step).history && Next(s, step).history[id].outcomes == s.history[id].outcomes
  {
    hide ApplyRow, NextWorker, NextJobs, EventFor, AttemptOf, Record;
    if id in s.jobs {
      EndedIsRecordedOnce(s.history[id], s.jobs[id], EventFor(s, step, id), AttemptOf(s, step));
    }
  }

  /** At most one outcome is ever committed: once a job has ended, no later write, not even a deletion, ends it again. */
  lemma {:induction false} SingleOutcome(states: seq<System>, steps: seq<Step>, i: nat, k: nat, id: JobId)
    requires IsRun(states, steps) && i <= k < |states|
    requires id in states[i].history && |states[i].history[id].outcomes| > 0
    ensures id in states[k].history && states[k].history[id].outcomes == states[i].history[id].outcomes
  {
    hide ApplyRow, EventFor, AttemptOf, Next, Legitimate;
    if i < k {
      SingleOutcome(states, steps, i, k - 1, id);
      if id in states[k - 1].jobs {
        RowsAlwaysConsistent(states, steps, k - 1, id);
      }
      OutcomeStep(states[k - 1], steps[k - 1], id);
    }
  }

  /** The columns that tell how a job ended, and all that led there. */
  predicate SameEnding(before: Job, after: Job) {
    && after.status == before.status && after.attempts == before.attempts && after.maxAttempts == before.maxAttempts
    && after.failureType == before.failureType && after.errorMessage == before.errorMessage
    && after.startedAt == before.startedAt && after.finishedAt == before.finishedAt
    && after.workerId == before.workerId && after.cancelRequested == before.cancelRequested
    && after.nextAttemptAt == before.nextAttemptAt && after.queuedAt == before.queuedAt && after.priority == before.priority
  }

  lemma EndedRowStep(job: Job, event: RowEvent)
    requires Terminal(job.status)
    ensures var after := ApplyRow(job, event);
            && SameEnding(job, after)
            && (after.result != job.result ==> event.LateProgress?)
            && (after.resultRunId != job.resultRunId ==> event.RunSaved?)
            && (after.leaseExpiresAt != job.leaseExpiresAt || after.heartbeatAt != job.heartbeatAt ==> event.LateBeat?)
  {
  }

  /** The late or saving writes of the protocol, told from the row event they make. */
  lemma LateEvents(s: System, step: Step, id: JobId)
    requires Enabled(s, step)
    ensures EventFor(s, step, id).LateProgress? <==> WritesProgress(s, step, id)
    ensures EventFor(s, step, id).RunSaved? <==> WritesSavedRun(s, step, id)
    ensures EventFor(s, step, id).LateBeat? <==> WritesBeat(step, id)
  {
  }

  predicate WritesProgress(s: System, step: Step, id: JobId) {
    step.ProgressWriteStep? && StateOf(s, step.worker).Reporting? && s.workers[step.worker].job == id
  }

  predicate WritesSavedRun(s: System, step: Step, id: JobId) {
    step.SaveWrite? && step.call in s.savesRead && s.savesRead[step.call] == id
  }

  predicate WritesBeat(step: Step, id: JobId) {
    step.BeatWrite? && step.id == id
  }

  /**
    An ended row is frozen for the rest of the run. Its result changes only through a late progress
    write, its saved run only through the write of a save call, its lease only through a late heartbeat.
  */
  lemma {:induction false} EndedRowIsFrozen(states: seq<System>, steps: seq<Step>, i: nat, k: nat, id: JobId)
    requires IsRun(states, steps) && i <= k < |states|
    requires id in states[i].jobs && Terminal(states[i].jobs[id].status)
    ensures id in states[k].history
    ensures id in states[k].jobs ==>
              var before, after := states[i].jobs[id], states[k].jobs[id];
              && SameEnding(before, after)
              && (after.result != before.result ==> exists j :: i <= j < k && WritesProgress(states[j], steps[j], id))
              && (after.resultRunId != before.resultRunId ==> exists j :: i <= j < k && WritesSavedRun(states[j], steps[j], id))
              && (after.leaseExpiresAt != before.leaseExpiresAt || after.heartbeatAt != before.heartbeatAt ==>
                    exists j :: i <= j < k && WritesBeat(steps[j], id))
  {
    hide ApplyRow, EventFor, AttemptOf, Next, Legitimate, RowInv;
    RowsAlwaysConsistent(states, steps, i, id);
    if i < k {
      EndedRowIsFrozen(states, steps, i, k - 1, id);
      RunStep(states, steps, k - 1, id);
      if id in states[k].jobs {
        EndedRowStep(states[k - 1].jobs[id], EventFor(states[k - 1], steps[k - 1], id));
        LateEvents(states[k - 1], steps[k - 1], id);
      }
    }
  }

  /** `w` runs attempt `a` of job `id` and holds the row for it. */
  predicate Holds(s: System, id: JobId, w: WorkerId, a: nat) {
    id in s.jobs && OwnedBy(s.jobs[id], w) && s.jobs[id].attempts == a
  }

  lemma HoldRowStep(job: Job, event: RowEvent, w: WorkerId, a: nat)
    requires a <= job.attempts && !(OwnedBy(job, w) && job.attempts == a)
    ensures var after := ApplyRow(job, event); !(OwnedBy(after, w) && after.attempts == a)
  {
  }

  /** A lost lease stays lost: an attempt that no longer holds its row never holds it again. */
  lemma {:induction false} LostLeaseStaysLost(
    states: seq<System>, steps: seq<Step>, i: nat, k: nat, id: JobId, w: WorkerId, a: nat)
    requires IsRun(states, steps) && i <= k < |states|
    requires id in states[i].history && a <= |states[i].history[id].claims|
    requires !Holds(states[i], id, w, a)
    ensures id in states[k].history && a <= |states[k].history[id].claims|
    ensures !Holds(states[k], id, w, a)
  {
    hide ApplyRow, EventFor, AttemptOf, Next, Legitimate;
    if i < k {
      LostLeaseStaysLost(states, steps, i, k - 1, id, w, a);
      RunStep(states, steps, k - 1, id);
      if id in states[k].jobs {
        RowsAlwaysConsistent(states, steps, k - 1, id);
        HoldRowStep(states[k - 1].jobs[id], EventFor(states[k - 1], steps[k - 1], id), w, a);
      }
    }
  }

  /** The writes a worker makes on behalf of its attempt. */
  predicate WritesFor(s: System, step: Step, w: WorkerId, id: JobId) {
    || (step.Beat? && step.worker == w && step.id == id)
    || ((step.ReportProgress? || step.Succeed? || step.Fail? || step.AcknowledgeStop?) &&
        step.worker == w && w in s.workers && !s.workers[w].Idle? && s.workers[w].job == id)
  }

  /**
    Fencing: once attempt `a` of worker `w` has lost its row, by recovery, reassignment or deletion,
    nothing that attempt writes later changes the table.
  */
  lemma FencedOut(states: seq<System>, steps: seq<Step>, i: nat, k: nat, id: JobId, w: WorkerId, a: nat)
    requires IsRun(states, steps) && i <= k < |steps|
    requires id in states[i].history && a <= |states[i].history[id].claims| && !Holds(states[i], id, w, a)
    requires WritesFor(states[k], steps[k], w, id)
    requires w in states[k].workers && !states[k].workers[w].Idle?
    requires states[k].workers[w].job == id && states[k].workers[w].attempt == a
    ensures states[k + 1].jobs == states[k].jobs
  {
    LostLeaseStaysLost(states, steps, i, k, id, w, a);
    RunInv(states, steps, k);
    assert WorkerInv(states[k], w);
    var s, step := states[k], steps[k];
    assert id in s.jobs ==> !OwnedBy(s.jobs[id], w);
    forall other | other in s.jobs ensures ApplyRow(s.jobs[other], EventFor(s, step, other)) == s.jobs[other] {
    }
  }

  /** The unlocked late writes of a heartbeat or progress call never touch who owns a job, how it stands or how it ended. */
  lemma LateWritesKeepOwnership(states: seq<System>, steps: seq<Step>, k: nat, id: JobId)
    requires IsRun(states, steps) && k < |steps| && (steps[k].BeatWrite? || steps[k].ProgressWriteStep?)
    requires id in states[k].jobs
    ensures id in states[k + 1].jobs
    ensures var before, after := states[k].jobs[id], states[k + 1].jobs[id];
            && after.status == before.status && after.workerId == before.workerId && after.attempts == before.attempts
            && after.cancelRequested == before.cancelRequested && after.finishedAt == before.finishedAt
            && after.resultRunId == before.resultRunId && after.nextAttemptAt == before.nextAttemptAt
            && (steps[k].ProgressWriteStep? ==> after.leaseExpiresAt == before.leaseExpiresAt)
            && (steps[k].BeatWrite? ==> after.result == before.result)
  {
    RunInv(states, steps, k);
    RunStep(states, steps, k, id);
  }

  // ---------- Cancellation

  lemma CancelRowStep(job: Job, h: History, event: RowEvent, attempt: nat)
    requires RowInv(job, h) && Legitimate(job, event, attempt) && job.cancelRequested
    ensures var after := ApplyRow(job, event);
            after.cancelRequested && after.attempts == job.attempts && after.status in {Running, Cancelled}
  {
  }

  /** Cancellation is irrevocable: the job can only go on running or be cancelled; it is never queued or claimed again. */
  lemma {:induction false} CancellationIsIrrevocable(states: seq<System>, steps: seq<Step>, i: nat, k: nat, id: JobId)
    requires IsRun(states, steps) && i <= k < |states|
    requires id in states[i].jobs && states[i].jobs[id].cancelRequested
    ensures id in states[k].history
    ensures id in states[k].jobs ==>
              && states[k].jobs[id].cancelRequested
              && states[k].jobs[id].status in {Running, Cancelled}
              && states[k].jobs[id].attempts == states[i].jobs[id].attempts
  {
    hide ApplyRow, EventFor, AttemptOf, Legitimate, Next, OutcomeInv;
    RowsAlwaysConsistent(states, steps, i, id);
    if i < k {
      CancellationIsIrrevocable(states, steps, i, k - 1, id);
      RunStep(states, steps, k - 1, id);
      if id in states[k].jobs {
        RowsAlwaysConsistent(states, steps, k - 1, id);
        CancelRowStep(states[k - 1].jobs[id], states[k - 1].history[id],
                      EventFor(states[k - 1], steps[k - 1], id), AttemptOf(states[k - 1], steps[k - 1]));
      }
    }
  }

  lemma AskedStep(s: System, step: Step, id: JobId)
    requires Enabled(s, step) && step != CancelCall(id)
    requires id in Next(s, step).history && Next(s, step).history[id].cancelAsked
    ensures id in s.history && s.history[id].cancelAsked
  {
    hide ApplyRow, NextWorker, NextJobs, AttemptOf, SameColumns, StateOf, Claimable;
  }

  lemma {:induction false} AskedMeansCalled(states: seq<System>, steps: seq<Step>, k: nat, id: JobId)
    requires IsRun(states, steps) && k < |states|
    requires id in states[k].history && states[k].history[id].cancelAsked
    ensures exists i :: 0 <= i < k && steps[i] == CancelCall(id)
  {
    hide Next, Enabled;
    if k > 0 {
      if steps[k - 1] != CancelCall(id) {
        AskedStep(states[k - 1], steps[k - 1], id);
        AskedMeansCalled(states, steps, k - 1, id);
      }
    }
  }

  /** Cancellation is never spurious, although a worker's check also answers "stop" when it lost the row. */
  lemma CancelledOnlyOnRequest(states: seq<System>, steps: seq<Step>, k: nat, id: JobId)
    requires IsRun(states, steps) && k < |states|
    requires id in states[k].jobs && states[k].jobs[id].status == Cancelled
    ensures exists i :: 0 <= i < k && steps[i] == CancelCall(id)
  {
    RowsAlwaysConsistent(states, steps, k, id);
    AskedMeansCalled(states, steps, k, id);
  }

  // ---------- Bounded retries

  /** How many status changes a job can still make. */
  function Rank(job: Job): int {
    if Terminal(job.status) then 0
    else 2 * (job.maxAttempts - job.attempts) + if job.status == Running then 1 else 0
  }

  lemma RankDecreases(job: Job, h: History, event: RowEvent, attempt: nat)
    requires RowInv(job, h) && Legitimate(job, event, attempt)
    ensures var after := ApplyRow(job, event);
            && after.maxAttempts == job.maxAttempts
            && 0 <= Rank(after) <= Rank(job)
            && (after.status != job.status ==> Rank(after) < Rank(job))
  {
    match event {
      case Finished(_, _, _, _) =>
      case AttemptFailed(_, _, _, _) =>
      case _ =>
    }
  }

  /** How often the job changed status in the first `k` steps. */
  ghost function StatusChanges(states: seq<System>, k: nat, id: JobId): nat
    requires k < |states|
  {
    if k == 0 then 0
    else StatusChanges(states, k - 1, id) +
         if id in states[k - 1].jobs && id in states[k].jobs &&
            states[k - 1].jobs[id].status != states[k].jobs[id].status then 1 else 0
  }

  /** Every run settles: a job changes status at most twice per allowed attempt. */
  lemma {:induction false} StatusChangesAreBounded(states: seq<System>, steps: seq<Step>, k: nat, id: JobId)
    requires IsRun(states, steps) && k < |states| && id in states[k].jobs
    ensures StatusChanges(states, k, id) + Rank(states[k].jobs[id]) <= 2 * states[k].jobs[id].maxAttempts
    ensures 0 <= Rank(states[k].jobs[id])
  {
    RowsAlwaysConsistent(states, steps, k, id);
    if id in states[k - 1].history {
      RunStep(states, steps, k - 1, id);
      StatusChangesAreBounded(states, steps, k - 1, id);
      RowsAlwaysConsistent(states, steps, k - 1, id);
      RankDecreases(states[k - 1].jobs[id], states[k - 1].history[id],
                    EventFor(states[k - 1], steps[k - 1], id), AttemptOf(states[k - 1], steps[k - 1]));
    } else {
      NoChangesBeforeCreation(states, steps, k - 1, id);
      RunInv(states, steps, k - 1);
    }
  }

  lemma {:induction false} NoChangesBeforeCreation(states: seq<System>, steps: seq<Step>, k: nat, id: JobId)
    requires IsRun(states, steps) && k < |states| && id !in states[k].history
    ensures StatusChanges(states, k, id) == 0
  {
    if k > 0 {
      RunInv(states, steps, k - 1);
      RunInv(states, steps, k);
      NoChangesBeforeCreation(states, steps, k - 1, id);
    }
  }

  /** Only its retry time can delay a queued job: the attempt budget and the cancel flag never do. */
  lemma QueuedWaitsOnlyForItsRetryTime(states: seq<System>, steps: seq<Step>, i: nat, id: JobId, now: Time)
    requires IsRun(states, steps) && i < |states| && id in states[i].jobs && states[i].jobs[id].status == Queued
    ensures var retry := states[i].jobs[id].nextAttemptAt;
            Claimable(states[i].jobs[id], now) <==> (retry.Some? ==> retry.value <= now)
  {
    RowsAlwaysConsistent(states, steps, i, id);
  }

  lemma {:induction false} DoublingGrows(m: nat, n: nat)
    requires m <= n
    ensures 1 <= Power(2, m) <= Power(2, n)
  {
    if n > 0 {
      DoublingGrows(if m == n then m - 1 else m, n - 1);
    }
  }

  lemma NothingDoubled()
    ensures Power(2, 0) == 1
  {
  }

  /** The backoff starts at the base delay, never shrinks from one attempt to a later one, and never exceeds its cap. */
  lemma BackoffIsMonotoneAndCapped(a: int, b: int, policy: RetryPolicy)
    requires a <= b
    ensures RetryDelay(a, policy) <= RetryDelay(b, policy) <= policy.maxSeconds
    ensures a <= 1 && policy.baseSeconds <= policy.maxSeconds ==> RetryDelay(a, policy) == policy.baseSeconds
  {
    hide Power;
    var m: nat, n: nat := if a > 1 then a - 1 else 0, if b > 1 then b - 1 else 0;
    DoublingGrows(m, n);
    NothingDoubled();
    MulMonotone(Power(2, m), Power(2, n), policy.baseSeconds);
  }

  // ---------- The unlocked writes: exactly when they break a promise

  predicate LeaseExact(job: Job) {
    job.status == Running <==> job.leaseExpiresAt.Some?
  }

  predicate ResultExact(job: Job) {
    job.status == Succeeded ==> job.result.Some? && job.result.value.Document?
  }

  /** A heartbeat's write landed on a row that had stopped running after the heartbeat read it. */
  predicate StrayBeat(s: System, step: Step) {
    step.BeatWrite? && step.id in s.jobs && s.jobs[step.id].status != Running
  }

  /** A progress write landed on a row that had succeeded after the progress call read it. */
  predicate StrayProgress(s: System, step: Step) {
    && step.ProgressWriteStep? && StateOf(s, step.worker).Reporting?
    && s.workers[step.worker].job in s.jobs && s.jobs[s.workers[step.worker].job].status == Succeeded
  }

  lemma LeaseRowStep(job: Job, h: History, event: RowEvent, attempt: nat)
    requires RowInv(job, h) && Legitimate(job, event, attempt) && LeaseExact(job)
    ensures LeaseExact(ApplyRow(job, event)) <==> !(event.LateBeat? && job.status != Running)
  {
  }

  /** A worker's own finish always carries a document when it reports success. */
  predicate Documented(event: RowEvent) {
    event.Finished? && event.status == Succeeded ==> event.outcome.document.Some?
  }

  lemma ResultRowStep(job: Job, event: RowEvent)
    requires ResultExact(job) && Documented(event)
    ensures ResultExact(ApplyRow(job, event)) <==> !(event.LateProgress? && job.status == Succeeded)
  {
  }

  ghost predicate AllRows(s: System, good: Job -> bool) {
    forall id :: id in s.jobs ==> good(s.jobs[id])
  }

  ghost predicate RowsUpTo(states: seq<System>, k: nat, good: Job -> bool)
    requires k <= |states|
  {
    forall i :: 0 <= i < k ==> AllRows(states[i], good)
  }

  lemma LeaseStep(states: seq<System>, steps: seq<Step>, k: nat)
    requires IsRun(states, steps) && k < |steps|
    requires AllRows(states[k], LeaseExact)
    ensures AllRows(states[k + 1], LeaseExact) <==> !StrayBeat(states[k], steps[k])
  {
    hide ApplyRow, RowInv, Legitimate;
    var s, step, after := states[k], steps[k], states[k + 1];
    RunInv(states, steps, k);
    forall id | id in s.history && id in after.jobs
      ensures LeaseExact(after.jobs[id]) <==> !(StrayBeat(s, step) && step.id == id)
    {
      RunStep(states, steps, k, id);
      LeaseRowStep(s.jobs[id], s.history[id], EventFor(s, step, id), AttemptOf(s, step));
    }
  }

  /** A row carries a lease exactly while it runs, in every state, if and only if no heartbeat write is stray. */
  lemma {:induction false} LeaseExactlyWhileRunning(states: seq<System>, steps: seq<Step>, k: nat)
    requires IsRun(states, steps) && k < |states|
    ensures RowsUpTo(states, k + 1, LeaseExact) <==> forall i :: 0 <= i < k ==> !StrayBeat(states[i], steps[i])
  {
    if k > 0 {
      LeaseExactlyWhileRunning(states, steps, k - 1);
      if RowsUpTo(states, k, LeaseExact) {
        LeaseStep(states, steps, k - 1);
      } else {
        assert !RowsUpTo(states, k + 1, LeaseExact);
      }
    }
  }

  lemma ResultStep(states: seq<System>, steps: seq<Step>, k: nat)
    requires IsRun(states, steps) && k < |steps|
    requires AllRows(states[k], ResultExact)
    ensures AllRows(states[k + 1], ResultExact) <==> !StrayProgress(states[k], steps[k])
  {
    hide ApplyRow, RowInv, Legitimate;
    var s, step, after := states[k], steps[k], states[k + 1];
    RunInv(states, steps, k);
    forall id | id in s.history && id in after.jobs
      ensures ResultExact(after.jobs[id]) <==> !(StrayProgress(s, step) && s.workers[step.worker].job == id)
    {
      RunStep(states, steps, k, id);
      ResultRowStep(s.jobs[id], EventFor(s, step, id));
    }
  }

  /** A succeeded row holds its result document, in every state, if and only if no progress write is stray. */
  lemma {:induction false} SucceededKeepsItsDocument(states: seq<System>, steps: seq<Step>, k: nat)
    requires IsRun(states, steps) && k < |states|
    ensures RowsUpTo(states, k + 1, ResultExact) <==> forall i :: 0 <= i < k ==> !StrayProgress(states[i], steps[i])
  {
    if k > 0 {
      SucceededKeepsItsDocument(states, steps, k - 1);
      if RowsUpTo(states, k, ResultExact) {
        ResultStep(states, steps, k - 1);
      } else {
        assert !RowsUpTo(states, k + 1, ResultExact);
      }
    }
  }
}
