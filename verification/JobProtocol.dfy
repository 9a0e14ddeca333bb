/**
  The queue as a distributed protocol: sequential workers, their heartbeat
  threads, API calls and lease recovery interleave arbitrarily over one table.
  Functions that read without a row lock are two steps, a read and a write.
  Source: backend/services/simulation_job_store.py, backend/services/simulation_worker.py
*/
module JobProtocol {
  import opened Wrappers
  import opened JobRow
  import opened JobStore

  /** What happened to a job, kept beside the table. */
  datatype History = History(claims: seq<WorkerId>, outcomes: seq<Outcome>, cancelAsked: bool)

  /** Who ended a job: the attempt of a worker, lease recovery, or the cancel call. */
  datatype Outcome =
    | ByAttempt(worker: WorkerId, attempt: nat, status: Status)
    | ByRecovery(status: Status)
    | ByCancelCall

  /** One call of the save endpoint. */
  type CallId = nat

  /** Where `run_simulation_job` stands in one worker. */
  datatype WorkerState =
    | Idle
    | Working(job: JobId, attempt: nat)
    | Reporting(job: JobId, attempt: nat)  // inside a progress call, between its read and its write
    | Stopping(job: JobId, attempt: nat)  // JobCancellationRequested was raised

  datatype System = System(
    now: Time,
    jobs: map<JobId, Job>,
    history: map<JobId, History>,
    workers: map<WorkerId, WorkerState>,
    beatsRead: set<JobId>,
    savesRead: map<CallId, JobId>,
    deletesRead: set<JobId>)

  datatype Step =
    | Tick(until: Time)
    | AddJob(id: JobId, maxAttempts: nat, priority: int)
    | StartWorker(worker: WorkerId)
    | ClaimJob(worker: WorkerId, id: JobId, lease: Time, locked: set<JobId>)
    | Beat(id: JobId, worker: WorkerId, lease: Time)
    | BeatRead(id: JobId, worker: WorkerId)
    | BeatWrite(id: JobId, lease: Time)
    | CheckActive(worker: WorkerId, swallowed: bool)
    | GiveUp(worker: WorkerId)
    | ReportProgress(worker: WorkerId, progress: nat)
    | ProgressReadStep(worker: WorkerId)
    | ProgressWriteStep(worker: WorkerId, progress: nat)
    | ProgressAbort(worker: WorkerId)
    | Succeed(worker: WorkerId, document: nat, raised: bool)
    | Fail(worker: WorkerId, report: FailureReport, policy: RetryPolicy)
    | AcknowledgeStop(worker: WorkerId)
    | CancelCall(id: JobId)
    | RecoverStep(locked: set<JobId>)
    | SaveRead(call: CallId, id: JobId)
    | SaveWrite(call: CallId, run: nat)
    | DeleteRead(id: JobId)
    | DeleteWrite(id: JobId)

  function StateOf(s: System, w: WorkerId): WorkerState {
    if w in s.workers then s.workers[w] else Idle
  }

  predicate Enabled(s: System, step: Step) {
    match step
    case Tick(until) => s.now <= until
    case AddJob(id, maxAttempts, _) => id !in s.history && maxAttempts >= 1
    case StartWorker(w) => w !in s.workers
    case ClaimJob(w, id, _, locked) =>
      w in s.workers && s.workers[w].Idle? && id in s.jobs && id !in locked && Claimable(s.jobs[id], s.now)
    case Beat(_, _, _) => true
    case BeatRead(id, w) => id in s.jobs && OwnedBy(s.jobs[id], w)
    case BeatWrite(id, _) => id in s.beatsRead
    case CheckActive(w, _) => StateOf(s, w).Working?
    case GiveUp(w) => !StateOf(s, w).Idle?
    case ReportProgress(w, _) => StateOf(s, w).Working?
    case ProgressReadStep(w) =>
      StateOf(s, w).Working? && s.workers[w].job in s.jobs && OwnedBy(s.jobs[s.workers[w].job], w)
    case ProgressWriteStep(w, _) => StateOf(s, w).Reporting?
    case ProgressAbort(w) => StateOf(s, w).Reporting?
    case Succeed(w, _, _) => StateOf(s, w).Working?
    case Fail(w, _, _) => StateOf(s, w).Working?
    case AcknowledgeStop(w) => StateOf(s, w).Stopping?
    case CancelCall(_) => true
    case RecoverStep(_) => true
    case SaveRead(call, id) =>
      call !in s.savesRead && id in s.jobs && s.jobs[id].status == Succeeded && s.jobs[id].resultRunId.None?
    case SaveWrite(call, _) => call in s.savesRead
    case DeleteRead(id) => id in s.jobs && s.jobs[id].status != Running
    case DeleteWrite(id) => id in s.deletesRead
  }

  /** What a step writes to the row `id`. */
  function EventFor(s: System, step: Step, id: JobId): RowEvent
    requires Enabled(s, step)
  {
    match step
    case ClaimJob(w, target, lease, _) => if id == target then Claimed(w, s.now, lease) else Untouched
    case Beat(target, w, lease) => if id == target then Beaten(w, s.now, lease) else Untouched
    case BeatWrite(target, lease) => if id == target then LateBeat(s.now, lease) else Untouched
    case ReportProgress(w, p) => if id == s.workers[w].job then ProgressMade(Some(w), p, s.now) else Untouched
    case ProgressWriteStep(w, p) => if id == s.workers[w].job then LateProgress(p, s.now) else Untouched
    case Succeed(w, document, _) =>
      if id == s.workers[w].job
      then Finished(Some(w), Succeeded, FinishReport(Some(document), None, None, None), s.now) else Untouched
    case Fail(w, report, policy) =>
      if id == s.workers[w].job then AttemptFailed(Some(w), report, policy, s.now) else Untouched
    case AcknowledgeStop(w) =>
      if id == s.workers[w].job then Finished(Some(w), Cancelled, CANCELLED_REPORT, s.now) else Untouched
    case CancelCall(target) => if id == target then CancelAsked(s.now) else Untouched
    case RecoverStep(locked) => if id in locked then Untouched else Recovered(s.now)
    case SaveWrite(call, run) => if id == s.savesRead[call] then RunSaved(run, s.now) else Untouched
    case _ => Untouched
  }

  /** The attempt on whose behalf a step writes; only attempts of workers carry one. */
  function AttemptOf(s: System, step: Step): nat
    requires Enabled(s, step)
  {
    match step
    case Succeed(w, _, _) => s.workers[w].attempt
    case Fail(w, _, _) => s.workers[w].attempt
    case AcknowledgeStop(w) => s.workers[w].attempt
    case _ => 0
  }

  /** The two rows agree on every column but the time of the last write. */
  predicate SameColumns(before: Job, after: Job) {
    after.(updatedAt := before.updatedAt) == before
  }

  /**
    The history entry after `event` took the row from `before` to `after`. Every write that leaves an
    ended row behind counts as an outcome, also one that alters a row that had ended before.
  */
  function Record(h: History, before: Job, event: RowEvent, after: Job, attempt: nat): History {
    var claims :=
      if event.Claimed? && before.status != Running && after.status == Running
      then h.claims + [event.worker] else h.claims;
    var outcomes :=
      if !Terminal(after.status) || SameColumns(before, after) then h.outcomes
      else if event.Recovered? then h.outcomes + [ByRecovery(after.status)]
      else if event.CancelAsked? then h.outcomes + [ByCancelCall]
      else if (event.Finished? || event.AttemptFailed?) && event.caller.Some?
      then h.outcomes + [ByAttempt(event.caller.value, attempt, after.status)]
      else h.outcomes;
    History(claims, outcomes, h.cancelAsked || event.CancelAsked?)
  }

  function NextWorker(s: System, step: Step, w: WorkerId): WorkerState
    requires Enabled(s, step) && w in s.workers
  {
    match step
    case ClaimJob(v, id, _, _) => if w == v then Working(id, s.jobs[id].attempts + 1) else s.workers[w]
    case CheckActive(v, swallowed) =>
      var job := s.workers[v].job;
      var row := if job in s.jobs then Some(s.jobs[job]) else None;
      if w == v && !swallowed && ShouldStop(row, Some(v)) then Stopping(job, s.workers[v].attempt) else s.workers[w]
    case ProgressReadStep(v) =>
      if w == v then Reporting(s.workers[v].job, s.workers[v].attempt) else s.workers[w]
    case ProgressWriteStep(v, _) =>
      if w == v then Working(s.workers[v].job, s.workers[v].attempt) else s.workers[w]
    case ProgressAbort(v) =>
      if w == v then Working(s.workers[v].job, s.workers[v].attempt) else s.workers[w]
    case GiveUp(v) => if w == v then Idle else s.workers[w]
    case Succeed(v, _, raised) => if w == v && !raised then Idle else s.workers[w]
    case Fail(v, _, _) => if w == v then Idle else s.workers[w]
    case AcknowledgeStop(v) => if w == v then Idle else s.workers[w]
    case _ => s.workers[w]
  }

  function NextJobs(s: System, step: Step): map<JobId, Job>
    requires Enabled(s, step)
  {
    match step
    case AddJob(id, maxAttempts, priority) => s.jobs[id := NewJob(maxAttempts, priority, s.now)]
    case DeleteWrite(id) => s.jobs - {id}
    case _ => map id | id in s.jobs :: ApplyRow(s.jobs[id], EventFor(s, step, id))
  }

  function NextHistory(s: System, step: Step): map<JobId, History>
    requires Enabled(s, step)
  {
    match step
    case AddJob(id, _, _) => s.history[id := History([], [], false)]
    case DeleteWrite(_) => s.history
    case _ =>
      map id | id in s.history ::
        if id in s.jobs
        then var event := EventFor(s, step, id);
             Record(s.history[id], s.jobs[id], event, ApplyRow(s.jobs[id], event), AttemptOf(s, step))
        else s.history[id]
  }

  function Next(s: System, step: Step): System
    requires Enabled(s, step)
  {
    System(
      if step.Tick? then step.until else s.now,
      NextJobs(s, step),
      NextHistory(s, step),
      if step.StartWorker? then s.workers[step.worker := Idle]
      else map w | w in s.workers :: NextWorker(s, step, w),
      if step.BeatRead? then s.beatsRead + {step.id} else s.beatsRead,
      if step.SaveRead? then s.savesRead[step.call := step.id]
      else if step.SaveWrite? then s.savesRead - {step.call}
      else s.savesRead,
      if step.DeleteRead? then s.deletesRead + {step.id} else s.deletesRead)
  }

  const EMPTY := System(0.0, map[], map[], map[], {}, map[], {})

  /** A run: from the empty queue, every state follows from the one before by an enabled step. */
  ghost predicate IsRun(states: seq<System>, steps: seq<Step>) {
    && |states| == |steps| + 1
    && states[0] == EMPTY
    && forall i :: 0 <= i < |steps| ==> Enabled(states[i], steps[i]) && states[i + 1] == Next(states[i], steps[i])
  }

  // ---------- What holds of one row and its history

  predicate RowInv(job: Job, h: History) {
    && (job.status == Running <==> job.workerId.Some?)
    && (Terminal(job.status) <==> job.finishedAt.Some?)
    && (job.resultRunId.Some? ==> job.status == Succeeded)
    && (job.cancelRequested ==> job.status in {Running, Cancelled} && h.cancelAsked)
    && 1 <= job.maxAttempts && job.attempts == |h.claims| <= job.maxAttempts
    && (job.status == Queued ==> job.attempts < job.maxAttempts)
    && (job.status == Running ==> |h.claims| > 0 && job.workerId == Some(h.claims[|h.claims| - 1]))
    && (job.status == Cancelled ==> job.cancelRequested)
    && OutcomeInv(job, h)
  }

  /** A job has ended at most once, and an attempt that ended it was the newest claim. */
  predicate OutcomeInv(job: Job, h: History) {
    && |h.outcomes| == (if Terminal(job.status) then 1 else 0)
    && (|h.outcomes| == 1 ==>
          match h.outcomes[0]
          case ByAttempt(w, attempt, status) =>
            attempt == |h.claims| > 0 && h.claims[attempt - 1] == w && status == job.status
          case ByRecovery(status) => status == job.status
          case ByCancelCall => job.status == Cancelled)
  }

  /**
    The events that can reach a row: a finish or failure comes from the worker's
    current attempt, a worker's own cancellation only after a request, and a run
    is recorded only on a succeeded row.
  */
  predicate Legitimate(job: Job, event: RowEvent, attempt: nat) {
    match event
    case Finished(caller, status, outcome, _) =>
      && caller.Some? && Terminal(status) && outcome.run.None?
      && (OwnedBy(job, caller.value) ==>
            attempt == job.attempts && (status == Cancelled ==> job.cancelRequested))
    case AttemptFailed(caller, _, _, _) =>
      caller.Some? && (OwnedBy(job, caller.value) ==> attempt == job.attempts)
    case ProgressMade(caller, _, _) => caller.Some?
    case RunSaved(_, _) => job.status == Succeeded
    case _ => true
  }

  lemma RowInvKept(job: Job, h: History, event: RowEvent, attempt: nat)
    requires RowInv(job, h) && Legitimate(job, event, attempt)
    ensures var after := ApplyRow(job, event);
            RowInv(after, Record(h, job, event, after, attempt))
  {
    match event {
      case Finished(_, _, _, _) =>
      case AttemptFailed(_, _, _, _) =>
      case Claimed(_, _, _) =>
      case Recovered(_) =>
      case _ =>
    }
  }

  // ---------- What holds of the whole system

  /** A worker's attempt is a recorded claim; if it still owns its row, the attempt is the row's newest. */
  predicate WorkerInv(s: System, w: WorkerId)
    requires w in s.workers
  {
    var state := s.workers[w];
    state.Idle? ||
    (&& state.job in s.history
     && 0 < state.attempt <= |s.history[state.job].claims|
     && s.history[state.job].claims[state.attempt - 1] == w
     && (state.job in s.jobs && OwnedBy(s.jobs[state.job], w) ==>
           && state.attempt == s.jobs[state.job].attempts
           && (state.Stopping? ==> s.jobs[state.job].cancelRequested)))
  }

  /** A save call that found a job succeeded will find it succeeded, or gone. */
  predicate SaveInv(s: System, id: JobId) {
    id in s.history && (id in s.jobs ==> s.jobs[id].status == Succeeded)
  }

  ghost predicate Inv(s: System) {
    && (forall id :: id in s.jobs ==> id in s.history && RowInv(s.jobs[id], s.history[id]))
    && (forall w :: w in s.workers ==> WorkerInv(s, w))
    && (forall call :: call in s.savesRead ==> SaveInv(s, s.savesRead[call]))
  }

  /** The worker whose attempt a step ends. */
  predicate EndsAttempt(step: Step, w: WorkerId) {
    (step.Succeed? || step.Fail? || step.AcknowledgeStop?) && step.worker == w
  }

  lemma OutcomesAreLegitimate(s: System, step: Step, id: JobId, w: WorkerId)
    requires Inv(s) && Enabled(s, step) && id in s.jobs && EndsAttempt(step, w)
    ensures Legitimate(s.jobs[id], EventFor(s, step, id), AttemptOf(s, step))
  {
    hide RowInv;
    assert WorkerInv(s, w);
  }

  lemma SavesAreLegitimate(s: System, step: Step, id: JobId)
    requires Inv(s) && Enabled(s, step) && id in s.jobs && step.SaveWrite?
    ensures Legitimate(s.jobs[id], EventFor(s, step, id), AttemptOf(s, step))
  {
    hide RowInv, WorkerInv;
    assert SaveInv(s, s.savesRead[step.call]);
  }

  lemma EventsAreLegitimate(s: System, step: Step, id: JobId)
    requires Inv(s) && Enabled(s, step) && id in s.jobs
    ensures Legitimate(s.jobs[id], EventFor(s, step, id), AttemptOf(s, step))
  {
    hide Inv, OwnedBy;
    match step {
      case Succeed(w, _, _) => OutcomesAreLegitimate(s, step, id, w);
      case Fail(w, _, _) => OutcomesAreLegitimate(s, step, id, w);
      case AcknowledgeStop(w) => OutcomesAreLegitimate(s, step, id, w);
      case SaveWrite(_, _) => SavesAreLegitimate(s, step, id);
      case _ =>
    }
  }

  /** A surviving row moved by exactly its own event, and its history recorded it. */
  lemma RowMoved(s: System, step: Step, id: JobId)
    requires Enabled(s, step) && id in Next(s, step).jobs && id in s.history
    requires forall other :: other in s.jobs ==> other in s.history
    ensures id in s.jobs && id in Next(s, step).history
    ensures Next(s, step).jobs[id] == ApplyRow(s.jobs[id], EventFor(s, step, id))
    ensures Next(s, step).history[id] ==
            Record(s.history[id], s.jobs[id], EventFor(s, step, id), Next(s, step).jobs[id], AttemptOf(s, step))
  {
  }

  lemma HistoryGrows(s: System, step: Step, id: JobId)
    requires Enabled(s, step) && id in s.history
    ensures id in Next(s, step).history
    ensures s.history[id].claims <= Next(s, step).history[id].claims
    ensures id !in s.jobs ==> id !in Next(s, step).jobs
  {
    hide ApplyRow, NextWorker, EventFor, AttemptOf;
  }

  lemma RowsKept(s: System, step: Step, id: JobId)
    requires Inv(s) && Enabled(s, step) && id in Next(s, step).jobs
    ensures id in Next(s, step).history
    ensures RowInv(Next(s, step).jobs[id], Next(s, step).history[id])
  {
    if id in s.history {
      RowMoved(s, step, id);
      EventsAreLegitimate(s, step, id);
      RowInvKept(s.jobs[id], s.history[id], EventFor(s, step, id), AttemptOf(s, step));
    }
  }

  /** Only a claim by `w` makes a row `w`'s own; until then its attempt number stands still. */
  lemma OwnershipComesFromClaims(job: Job, event: RowEvent, w: WorkerId)
    requires OwnedBy(ApplyRow(job, event), w)
    requires !(event.Claimed? && event.worker == w)
    ensures OwnedBy(job, w)
    ensures ApplyRow(job, event).attempts == job.attempts
    ensures job.cancelRequested ==> ApplyRow(job, event).cancelRequested
  {
  }

  lemma ClaimerKept(s: System, step: Step)
    requires Inv(s) && Enabled(s, step) && step.ClaimJob?
    ensures WorkerInv(Next(s, step), step.worker)
  {
    assert RowInv(s.jobs[step.id], s.history[step.id]);
    RowMoved(s, step, step.id);
  }

  /** A worker keeps its job and attempt, and stops only where its check told it to. */
  lemma WorkerStays(s: System, step: Step, w: WorkerId)
    requires Enabled(s, step) && w in s.workers && !(step.ClaimJob? && step.worker == w)
    requires !NextWorker(s, step, w).Idle?
    ensures !s.workers[w].Idle?
    ensures NextWorker(s, step, w).job == s.workers[w].job && NextWorker(s, step, w).attempt == s.workers[w].attempt
    ensures NextWorker(s, step, w).Stopping? && !s.workers[w].Stopping? && s.workers[w].job in s.jobs ==>
              ShouldStop(Some(s.jobs[s.workers[w].job]), Some(w))
  {
  }

  lemma WorkersKept(s: System, step: Step, w: WorkerId)
    requires Inv(s) && Enabled(s, step) && w in Next(s, step).workers
    ensures WorkerInv(Next(s, step), w)
  {
    hide ApplyRow, RowInv, ShouldStop;
    var after := Next(s, step);
    var state := after.workers[w];
    if step.ClaimJob? && step.worker == w {
      ClaimerKept(s, step);
    } else if !state.Idle? {
      WorkerStays(s, step, w);
      assert WorkerInv(s, w);
      HistoryGrows(s, step, state.job);
      if state.job in after.jobs && OwnedBy(after.jobs[state.job], w) {
        RowMoved(s, step, state.job);
        OwnershipComesFromClaims(s.jobs[state.job], EventFor(s, step, state.job), w);
      }
    }
  }

  /** Nothing that could end a job writes to a job that has ended. */
  lemma EndsOnlyOnce(job: Job, event: RowEvent)
    requires Terminal(job.status) && (event.Finished? || event.AttemptFailed? || event.Recovered? || event.CancelAsked?)
    ensures SameColumns(job, ApplyRow(job, event))
  {
  }

  lemma TerminalStays(job: Job, event: RowEvent)
    requires Terminal(job.status)
    ensures ApplyRow(job, event).status == job.status
  {
  }

  lemma SavesKept(s: System, step: Step, id: JobId)
    requires Inv(s) && Enabled(s, step) && SaveInv(s, id)
    ensures SaveInv(Next(s, step), id)
  {
    hide ApplyRow, EventFor;
    HistoryGrows(s, step, id);
    if id in Next(s, step).jobs {
      RowMoved(s, step, id);
      TerminalStays(s.jobs[id], EventFor(s, step, id));
    }
  }

  lemma StepKeepsInv(s: System, step: Step)
    requires Inv(s) && Enabled(s, step)
    ensures Inv(Next(s, step))
  {
    hide ApplyRow, EventFor, RowInv, WorkerInv, NextWorker, NextHistory;
    forall id | id in Next(s, step).jobs
      ensures id in Next(s, step).history && RowInv(Next(s, step).jobs[id], Next(s, step).history[id])
    {
      RowsKept(s, step, id);
    }
    forall w | w in Next(s, step).workers ensures WorkerInv(Next(s, step), w) {
      WorkersKept(s, step, w);
    }
    forall call | call in Next(s, step).savesRead ensures SaveInv(Next(s, step), Next(s, step).savesRead[call]) {
      var id := Next(s, step).savesRead[call];
      if call in s.savesRead {
        SavesKept(s, step, id);
      } else {
        assert step == SaveRead(call, id) && SaveInv(s, id);
        SavesKept(s, step, id);
      }
    }
  }
}
