/**
  The races that the store's unlocked reads leave open: exactly when a deletion removes a running job,
  when a progress write spoils a result and when a save replaces a recorded run.
  Source: backend/services/simulation_job_store.py
*/
module JobRaces {
  import opened Wrappers
  import opened JobRow
  import opened JobStore
  import opened JobProtocol
  import opened JobRuns

  // ---------- Deleting a job that was claimed after the check

  lemma OnlyClaimsStart(s: System, step: Step, id: JobId)
    requires Enabled(s, step) && id in s.jobs && s.jobs[id].status != Running
    requires ApplyRow(s.jobs[id], EventFor(s, step, id)).status == Running
    ensures step.ClaimJob? && step.id == id
  {
  }

  lemma {:induction false} ExistsThroughout(states: seq<System>, steps: seq<Step>, i: nat, k: nat, id: JobId)
    requires IsRun(states, steps) && i <= k < |states| && id in states[i].jobs
    ensures id in states[k].history
  {
    RunInv(states, steps, i);
    if i < k {
      ExistsThroughout(states, steps, i, k - 1, id);
      HistoryGrows(states[k - 1], steps[k - 1], id);
    }
  }

  lemma DeleteReadStep(s: System, step: Step, id: JobId)
    requires Enabled(s, step)
    ensures id in Next(s, step).deletesRead <==> id in s.deletesRead || step == DeleteRead(id)
  {
    hide NextJobs, NextHistory, NextWorker;
  }

  /** Every deletion goes back to a read that found the job not running. */
  lemma {:induction false} DeletionWasChecked(states: seq<System>, steps: seq<Step>, k: nat, id: JobId) returns (i: nat)
    requires IsRun(states, steps) && k < |states| && id in states[k].deletesRead
    ensures i < k && steps[i] == DeleteRead(id)
  {
    hide Next, Enabled;
    NothingReadYet();
    i := k - 1;
    if steps[k - 1] != DeleteRead(id) {
      DeleteReadStep(states[k - 1], steps[k - 1], id);
      i := DeletionWasChecked(states, steps, k - 1, id);
    }
  }

  lemma NothingReadYet()
    ensures EMPTY.deletesRead == {}
  {
  }

  /** Step `j` claimed the job, and that attempt holds the row in state `k`. */
  predicate ClaimStillHolds(states: seq<System>, steps: seq<Step>, j: nat, k: nat, id: JobId)
    requires j < |steps| && j < |states| && k < |states|
  {
    && steps[j].ClaimJob? && steps[j].id == id && id in states[j].jobs
    && Holds(states[k], id, steps[j].worker, states[j].jobs[id].attempts + 1)
  }

  lemma ClaimTakesHold(s: System, step: Step)
    requires Enabled(s, step) && step.ClaimJob?
    ensures Holds(Next(s, step), step.id, step.worker, s.jobs[step.id].attempts + 1)
  {
  }

  /** A running row that keeps running keeps its owner and its attempt. */
  lemma RunningKeepsOwner(job: Job, event: RowEvent, attempt: nat, w: WorkerId)
    requires Legitimate(job, event, attempt) && OwnedBy(job, w) && ApplyRow(job, event).status == Running
    ensures OwnedBy(ApplyRow(job, event), w) && ApplyRow(job, event).attempts == job.attempts
  {
  }

  /** A job seen not running and later running was claimed in between, by an attempt that still holds the row. */
  lemma {:induction false} RunningWasClaimed(states: seq<System>, steps: seq<Step>, i: nat, k: nat, id: JobId) returns (j: nat)
    requires IsRun(states, steps) && i <= k < |states|
    requires id in states[i].jobs && states[i].jobs[id].status != Running
    requires id in states[k].jobs && states[k].jobs[id].status == Running
    ensures i <= j < k && ClaimStillHolds(states, steps, j, k, id)
  {
    hide ApplyRow, EventFor, AttemptOf, Legitimate, Next;
    ExistsThroughout(states, steps, i, k - 1, id);
    RunStep(states, steps, k - 1, id);
    if states[k - 1].jobs[id].status == Running {
      j := RunningWasClaimed(states, steps, i, k - 1, id);
      RunningKeepsOwner(states[k - 1].jobs[id], EventFor(states[k - 1], steps[k - 1], id),
                        AttemptOf(states[k - 1], steps[k - 1]), steps[j].worker);
    } else {
      j := k - 1;
      OnlyClaimsStart(states[k - 1], steps[k - 1], id);
      ClaimTakesHold(states[k - 1], steps[k - 1]);
    }
  }

  /** The deletion at step `k` goes back to the read at step `i`. */
  predicate ChecksBefore(steps: seq<Step>, i: nat, k: nat, id: JobId) {
    i < k < |steps| && steps[i] == DeleteRead(id)
  }

  /**
    Deletion checks the status without a lock. Every deletion goes back to such a check, and it removes
    a running job if and only if the job was claimed after that check by an attempt that still holds it.
  */
  lemma DeletesRunningOnlyIfClaimedMeanwhile(states: seq<System>, steps: seq<Step>, k: nat, id: JobId)
    requires IsRun(states, steps) && k < |steps| && steps[k] == DeleteWrite(id) && id in states[k].jobs
    ensures id !in states[k + 1].jobs
    ensures exists i: nat :: ChecksBefore(steps, i, k, id)
    ensures forall i: nat :: ChecksBefore(steps, i, k, id) ==>
              (states[k].jobs[id].status == Running <==>
                 exists j: nat :: i <= j < k && ClaimStillHolds(states, steps, j, k, id))
  {
    var checked := DeletionWasChecked(states, steps, k, id);
    assert ChecksBefore(steps, checked, k, id);
    forall i: nat | ChecksBefore(steps, i, k, id)
      ensures states[k].jobs[id].status == Running <==>
                exists j: nat :: i <= j < k && ClaimStillHolds(states, steps, j, k, id)
    {
      if states[k].jobs[id].status == Running {
        assert Enabled(states[i], steps[i]);
        var j := RunningWasClaimed(states, steps, i, k, id);
      }
    }
  }

  // ---------- Reporting progress on a job that was taken away

  /** The progress call that `w` is in at state `k` read the row at step `i`. */
  predicate ProgressPending(states: seq<System>, steps: seq<Step>, i: nat, k: nat, w: WorkerId)
    requires k < |states|
  {
    && i < k && i < |steps| && steps[i] == ProgressReadStep(w) && StateOf(states[k], w).Reporting?
    && forall j :: i < j <= k ==> StateOf(states[j], w) == StateOf(states[k], w)
  }

  /** A worker enters a progress call by its read only, and the call keeps it from everything else. */
  lemma ReportingStep(s: System, step: Step, w: WorkerId)
    requires Enabled(s, step) && StateOf(Next(s, step), w).Reporting?
    ensures step == ProgressReadStep(w) || StateOf(Next(s, step), w) == StateOf(s, w)
  {
    hide NextJobs, NextHistory, ShouldStop;
  }

  /** The read of a progress call finds the row held by the calling attempt. */
  lemma ReadFindsItsRow(s: System, w: WorkerId)
    requires Inv(s) && Enabled(s, ProgressReadStep(w))
    ensures var state := StateOf(Next(s, ProgressReadStep(w)), w);
            state.Reporting? && Holds(s, state.job, w, state.attempt) && Next(s, ProgressReadStep(w)).jobs == s.jobs
  {
    hide RowInv;
    assert WorkerInv(s, w);
  }

  lemma {:induction false} ProgressWasRead(states: seq<System>, steps: seq<Step>, k: nat, w: WorkerId) returns (i: nat)
    requires IsRun(states, steps) && k < |states| && StateOf(states[k], w).Reporting?
    ensures ProgressPending(states, steps, i, k, w)
  {
    hide Next, Enabled;
    ReportingStep(states[k - 1], steps[k - 1], w);
    if steps[k - 1] == ProgressReadStep(w) {
      i := k - 1;
    } else {
      i := ProgressWasRead(states, steps, k - 1, w);
    }
  }

  /** Recovery took the row of `id` from attempt `a` of `w` at step `j`. */
  predicate TakesBack(states: seq<System>, steps: seq<Step>, j: nat, id: JobId, w: WorkerId, a: nat)
    requires j < |steps| && j + 1 < |states|
  {
    && steps[j].RecoverStep? && Holds(states[j], id, w, a)
    && id in states[j + 1].jobs && states[j + 1].jobs[id].status != Running
  }

  /** A worker other than `w` finished the job successfully at step `m`. */
  predicate SucceedsElsewhere(states: seq<System>, steps: seq<Step>, m: nat, id: JobId, w: WorkerId)
    requires m < |steps| && m + 1 < |states|
  {
    && steps[m].Succeed? && steps[m].worker != w && id in states[m].jobs && OwnedBy(states[m].jobs[id], steps[m].worker)
    && id in states[m + 1].jobs && states[m + 1].jobs[id].status == Succeeded
  }

  /** A row leaves its owner by recovery, or by an outcome that its owner reports. */
  lemma LeavesOwner(job: Job, event: RowEvent, attempt: nat, w: WorkerId)
    requires Legitimate(job, event, attempt) && OwnedBy(job, w)
    ensures var after := ApplyRow(job, event);
            || (OwnedBy(after, w) && after.attempts == job.attempts)
            || (event.Recovered? && after.status != Running)
            || ((event.Finished? || event.AttemptFailed?) && event.caller == Some(w))
  {
  }

  /** A worker in a progress call reports no outcome, and rows are recovered by recovery only. */
  lemma EventsWhileReporting(s: System, step: Step, id: JobId, w: WorkerId)
    requires Enabled(s, step) && StateOf(s, w).Reporting?
    ensures var event := EventFor(s, step, id);
            && (event.Recovered? ==> step.RecoverStep?)
            && (event.Finished? || event.AttemptFailed? ==> event.caller.Some? && event.caller != Some(w))
  {
  }

  /** So did the read of the call that is pending at state `k`. */
  lemma PendingReadFoundItsRow(states: seq<System>, steps: seq<Step>, i: nat, k: nat, w: WorkerId)
    requires IsRun(states, steps) && k < |states| && ProgressPending(states, steps, i, k, w)
    ensures var state := StateOf(states[k], w);
            Holds(states[i], state.job, w, state.attempt) && states[i + 1].jobs == states[i].jobs
  {
    hide Next, Enabled, Inv;
    RunInv(states, steps, i);
    ReadFindsItsRow(states[i], w);
    assert StateOf(states[i + 1], w) == StateOf(states[k], w);
  }

  /** While its attempt is in a progress call, a row leaves it by recovery only. */
  lemma {:induction false} TakenWhileReporting(states: seq<System>, steps: seq<Step>, i: nat, k: nat, w: WorkerId) returns (j: nat)
    requires IsRun(states, steps) && k < |states| && ProgressPending(states, steps, i, k, w)
    requires var state := StateOf(states[k], w); state.job in states[k].jobs && !Holds(states[k], state.job, w, state.attempt)
    ensures i < j < k && TakesBack(states, steps, j, StateOf(states[k], w).job, w, StateOf(states[k], w).attempt)
  {
    hide ApplyRow, EventFor, AttemptOf, Legitimate, Next, Enabled, RowInv;
    var id, a := StateOf(states[k], w).job, StateOf(states[k], w).attempt;
    PendingReadFoundItsRow(states, steps, i, k, w);
    if i + 1 < k {
      ExistsThroughout(states, steps, i, k - 1, id);
      RunStep(states, steps, k - 1, id);
      if Holds(states[k - 1], id, w, a) {
        j := k - 1;
        LeavesOwner(states[j].jobs[id], EventFor(states[j], steps[j], id), AttemptOf(states[j], steps[j]), w);
        EventsWhileReporting(states[j], steps[j], id, w);
      } else {
        j := TakenWhileReporting(states, steps, i, k - 1, w);
      }
    }
  }

  lemma SuccessIsReported(job: Job, event: RowEvent, attempt: nat)
    requires Legitimate(job, event, attempt) && job.status != Succeeded && ApplyRow(job, event).status == Succeeded
    ensures event.Finished? && event.status == Succeeded && event.caller.Some? && OwnedBy(job, event.caller.value)
  {
  }

  lemma SuccessEvents(s: System, step: Step, id: JobId)
    requires Enabled(s, step) && EventFor(s, step, id).Finished? && EventFor(s, step, id).status == Succeeded
    ensures step.Succeed? && EventFor(s, step, id).caller == Some(step.worker) && StateOf(s, step.worker).Working?
  {
  }

  /** A job that `w` did not finish while in a progress call, but that has succeeded, was finished by another worker. */
  lemma {:induction false} SucceededElsewhere(states: seq<System>, steps: seq<Step>, i: nat, k: nat, id: JobId, w: WorkerId) returns (m: nat)
    requires IsRun(states, steps) && i <= k < |states|
    requires id in states[i].jobs && states[i].jobs[id].status != Succeeded
    requires id in states[k].jobs && states[k].jobs[id].status == Succeeded
    requires forall j :: i <= j < k ==> StateOf(states[j], w).Reporting?
    ensures i <= m < k && SucceedsElsewhere(states, steps, m, id, w)
  {
    hide ApplyRow, EventFor, AttemptOf, Legitimate, Next;
    ExistsThroughout(states, steps, i, k - 1, id);
    RunStep(states, steps, k - 1, id);
    if states[k - 1].jobs[id].status == Succeeded {
      m := SucceededElsewhere(states, steps, i, k - 1, id, w);
    } else {
      m := k - 1;
      SuccessIsReported(states[m].jobs[id], EventFor(states[m], steps[m], id), AttemptOf(states[m], steps[m]));
      SuccessEvents(states[m], steps[m], id);
    }
  }

  /** Between steps `i` and `k` recovery took the row from the attempt of `w`, and another worker then succeeded. */
  ghost predicate TakenAndFinished(states: seq<System>, steps: seq<Step>, i: nat, k: nat, id: JobId, w: WorkerId, a: nat)
    requires k < |steps| && |states| == |steps| + 1
  {
    exists j: nat, m: nat :: i < j < m < k && TakesBack(states, steps, j, id, w, a) && SucceedsElsewhere(states, steps, m, id, w)
  }

  /**
    Progress calls read without a lock. Every progress write goes back to a read that found the row held
    by the writing attempt, and it lands on a succeeded row if and only if, in between, recovery took the
    row from that attempt and another worker finished the job.
  */
  lemma StrayProgressOnlyAfterRecovery(states: seq<System>, steps: seq<Step>, k: nat)
    requires IsRun(states, steps) && k < |steps| && steps[k].ProgressWriteStep?
    ensures var w := steps[k].worker;
            var id, a := StateOf(states[k], w).job, StateOf(states[k], w).attempt;
            && StateOf(states[k], w).Reporting?
            && (exists i: nat :: ProgressPending(states, steps, i, k, w))
            && (forall i: nat :: ProgressPending(states, steps, i, k, w) ==>
                 && Holds(states[i], id, w, a)
                 && (StrayProgress(states[k], steps[k]) <==>
                      id in states[k].jobs && TakenAndFinished(states, steps, i, k, id, w, a)))
  {
    hide Next, TakenAndFinished;
    assert Enabled(states[k], steps[k]);
    var w := steps[k].worker;
    var read := ProgressWasRead(states, steps, k, w);
    forall i: nat | ProgressPending(states, steps, i, k, w)
      ensures Holds(states[i], StateOf(states[k], w).job, w, StateOf(states[k], w).attempt)
      ensures StrayProgress(states[k], steps[k]) <==>
                StateOf(states[k], w).job in states[k].jobs
                && TakenAndFinished(states, steps, i, k, StateOf(states[k], w).job, w, StateOf(states[k], w).attempt)
    {
      StrayIff(states, steps, i, k, w);
    }
  }

  lemma StrayIff(states: seq<System>, steps: seq<Step>, i: nat, k: nat, w: WorkerId)
    requires IsRun(states, steps) && k < |steps| && ProgressPending(states, steps, i, k, w)
    ensures var id, a := StateOf(states[k], w).job, StateOf(states[k], w).attempt;
            && Holds(states[i], id, w, a)
            && (id in states[k].jobs ==>
                  (states[k].jobs[id].status == Succeeded <==> TakenAndFinished(states, steps, i, k, id, w, a)))
  {
    hide Next, Enabled, RowInv;
    var id, a := StateOf(states[k], w).job, StateOf(states[k], w).attempt;
    PendingReadFoundItsRow(states, steps, i, k, w);
    if id in states[k].jobs {
      if states[k].jobs[id].status == Succeeded {
        var j := TakenWhileReporting(states, steps, i, k, w);
        var m := SucceededElsewhere(states, steps, j, k, id, w);
        assert j != m;
      } else if TakenAndFinished(states, steps, i, k, id, w, a) {
        var j: nat, m: nat :| i < j < m < k && TakesBack(states, steps, j, id, w, a) && SucceedsElsewhere(states, steps, m, id, w);
        TerminalIsForever(states, steps, m + 1, k, id);
        assert false;
      }
    }
  }

  // ---------- Saving the run of a job twice

  /** The save call `call` that is open at state `k` read the row of `id` at step `i`. */
  predicate SavePending(states: seq<System>, steps: seq<Step>, i: nat, k: nat, call: CallId, id: JobId)
    requires k < |states|
  {
    && i < k && i < |steps| && steps[i] == SaveRead(call, id)
    && forall j :: i < j <= k ==> call in states[j].savesRead && states[j].savesRead[call] == id
  }

  lemma SaveReadStep(s: System, step: Step, call: CallId, id: JobId)
    requires Enabled(s, step) && call in Next(s, step).savesRead && Next(s, step).savesRead[call] == id
    ensures step == SaveRead(call, id) || (call in s.savesRead && s.savesRead[call] == id)
  {
    hide NextJobs, NextHistory, NextWorker;
  }

  lemma {:induction false} SaveWasRead(states: seq<System>, steps: seq<Step>, k: nat, call: CallId, id: JobId) returns (i: nat)
    requires IsRun(states, steps) && k < |states| && call in states[k].savesRead && states[k].savesRead[call] == id
    ensures SavePending(states, steps, i, k, call, id)
  {
    hide Next, Enabled;
    SaveReadStep(states[k - 1], steps[k - 1], call, id);
    if steps[k - 1] == SaveRead(call, id) {
      i := k - 1;
    } else {
      i := SaveWasRead(states, steps, k - 1, call, id);
    }
  }

  lemma RunRowStep(job: Job, event: RowEvent)
    requires Terminal(job.status)
    ensures ApplyRow(job, event).resultRunId.Some? <==> job.resultRunId.Some? || event.RunSaved?
  {
  }

  /** An ended job carries a run exactly when it carried one before or a save call wrote one since. */
  lemma {:induction false} RunIsRecordedBySaves(states: seq<System>, steps: seq<Step>, i: nat, k: nat, id: JobId)
    requires IsRun(states, steps) && i <= k < |states|
    requires id in states[i].jobs && Terminal(states[i].jobs[id].status) && id in states[k].jobs
    ensures states[k].jobs[id].resultRunId.Some? <==>
              states[i].jobs[id].resultRunId.Some? || exists j :: i <= j < k && WritesSavedRun(states[j], steps[j], id)
  {
    hide ApplyRow, EventFor, AttemptOf, Legitimate, Next, Enabled, WritesSavedRun, Terminal;
    if i < k {
      ExistsThroughout(states, steps, i, k - 1, id);
      RunStep(states, steps, k - 1, id);
      TerminalIsForever(states, steps, i, k - 1, id);
      RunIsRecordedBySaves(states, steps, i, k - 1, id);
      RunRowStep(states[k - 1].jobs[id], EventFor(states[k - 1], steps[k - 1], id));
      LateEvents(states[k - 1], steps[k - 1], id);
    }
  }

  /**
    Saving checks for a recorded run, stores a new one and records it in a later transaction. Every such
    write goes back to a check that found the job succeeded and without a run, and it replaces a recorded
    run if and only if another save call recorded one after that check.
  */
  lemma SaveReplacesOnlyConcurrentSave(states: seq<System>, steps: seq<Step>, k: nat)
    requires IsRun(states, steps) && k < |steps| && steps[k].SaveWrite?
    ensures var call := steps[k].call;
            && call in states[k].savesRead
            && var id := states[k].savesRead[call];
            && (exists i: nat :: SavePending(states, steps, i, k, call, id))
            && (id in states[k].jobs ==>
                 && id in states[k + 1].jobs && states[k + 1].jobs[id].resultRunId == Some(steps[k].run)
                 && forall i: nat :: SavePending(states, steps, i, k, call, id) ==>
                      (states[k].jobs[id].resultRunId.Some? <==>
                         exists j :: i < j < k && WritesSavedRun(states[j], steps[j], id) && steps[j].call != call))
  {
    hide Next, NextHistory, NextWorker;
    assert Enabled(states[k], steps[k]);
    var call := steps[k].call;
    var id := states[k].savesRead[call];
    var read := SaveWasRead(states, steps, k, call, id);
    if id in states[k].jobs {
      SaveRecords(states[k], steps[k]);
      forall i: nat | SavePending(states, steps, i, k, call, id)
        ensures states[k].jobs[id].resultRunId.Some? <==>
                  exists j :: i < j < k && WritesSavedRun(states[j], steps[j], id) && steps[j].call != call
      {
        ReplacedIff(states, steps, i, k, call, id);
      }
    }
  }

  lemma SaveRecords(s: System, step: Step)
    requires Enabled(s, step) && step.SaveWrite? && s.savesRead[step.call] in s.jobs
    ensures var id := s.savesRead[step.call];
            id in Next(s, step).jobs && Next(s, step).jobs[id].resultRunId == Some(step.run)
  {
    hide NextHistory, NextWorker;
  }

  /** A save call is over once it has written. */
  lemma SaveIsDone(s: System, step: Step)
    requires Enabled(s, step) && step.SaveWrite?
    ensures step.call !in Next(s, step).savesRead
  {
    hide NextJobs, NextHistory, NextWorker;
  }

  lemma ReplacedIff(states: seq<System>, steps: seq<Step>, i: nat, k: nat, call: CallId, id: JobId)
    requires IsRun(states, steps) && k < |states| && SavePending(states, steps, i, k, call, id) && id in states[k].jobs
    ensures states[k].jobs[id].resultRunId.Some? <==>
              exists j :: i < j < k && WritesSavedRun(states[j], steps[j], id) && steps[j].call != call
  {
    hide Next, NextHistory, NextWorker;
    assert Enabled(states[i], steps[i]);
    RunIsRecordedBySaves(states, steps, i, k, id);
    forall j | i <= j < k && WritesSavedRun(states[j], steps[j], id) ensures i < j && steps[j].call != call {
      assert Enabled(states[j], steps[j]) && states[j + 1] == Next(states[j], steps[j]);
      SaveIsDone(states[j], steps[j]);
    }
  }
}
