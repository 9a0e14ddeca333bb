/**
  Runs in which the broken promises of the queue are broken: every race of `JobRaces` can happen.
  Source: backend/services/simulation_job_store.py, backend/services/simulation_worker.py
*/
module JobSchedules {
  import opened Wrappers
  import opened JobRow
  import opened JobStore
  import opened JobProtocol
  import opened JobRuns

  /** A run grows by any enabled step. */
  lemma Grow(before: seq<System>, made: seq<Step>, step: Step) returns (states: seq<System>, steps: seq<Step>)
    requires IsRun(before, made) && Enabled(before[|made|], step)
    ensures states == before + [Next(before[|made|], step)] && steps == made + [step] && IsRun(states, steps)
  {
    hide Next, Enabled;
    states, steps := before + [Next(before[|made|], step)], made + [step];
    forall i | 0 <= i < |steps| ensures Enabled(states[i], steps[i]) && states[i + 1] == Next(states[i], steps[i]) {
      if i < |made| {
        assert states[i] == before[i] && states[i + 1] == before[i + 1] && steps[i] == made[i];
      }
    }
  }

  function ClaimBy(w: WorkerId, id: JobId): Step {
    ClaimJob(w, id, 90.0, {})
  }

  // ---------- One worker at work

  /** The queue with one job that was just added and an idle worker. */
  predicate Ready(s: System, id: JobId, w: WorkerId) {
    id in s.jobs && s.jobs[id] == NewJob(1, 0, s.now) && w in s.workers && s.workers[w].Idle?
  }

  lemma ReadyRun(id: JobId, w: WorkerId) returns (states: seq<System>, steps: seq<Step>)
    ensures IsRun(states, steps) && Ready(states[|steps|], id, w) && states[|steps|].savesRead == map[]
  {
    states, steps := Grow([EMPTY], [], AddJob(id, 1, 0));
    states, steps := Grow(states, steps, StartWorker(w));
  }

  /** The worker runs the job's first attempt and holds its row. */
  predicate Busy(s: System, id: JobId, w: WorkerId) {
    && Holds(s, id, w, 1) && !s.jobs[id].cancelRequested
    && w in s.workers && s.workers[w] == Working(id, 1)
  }

  lemma ClaimMakesBusy(s: System, id: JobId, w: WorkerId)
    requires Ready(s, id, w)
    ensures Enabled(s, ClaimBy(w, id)) && Busy(Next(s, ClaimBy(w, id)), id, w)
    ensures Next(s, ClaimBy(w, id)).deletesRead == s.deletesRead && Next(s, ClaimBy(w, id)).savesRead == s.savesRead
  {
  }

  lemma BusyRun(id: JobId, w: WorkerId) returns (states: seq<System>, steps: seq<Step>)
    ensures IsRun(states, steps) && Busy(states[|steps|], id, w) && states[|steps|].savesRead == map[]
  {
    hide Next, Enabled;
    states, steps := ReadyRun(id, w);
    ClaimMakesBusy(states[|steps|], id, w);
    states, steps := Grow(states, steps, ClaimBy(w, id));
  }

  lemma SuccessIsRecorded(s: System, id: JobId, w: WorkerId)
    requires Busy(s, id, w)
    ensures var after := Next(s, Succeed(w, 0, false));
            && Enabled(s, Succeed(w, 0, false)) && id in after.jobs && after.jobs[id].status == Succeeded
            && after.beatsRead == s.beatsRead && after.savesRead == s.savesRead && after.jobs[id].resultRunId.None?
  {
  }

  // ---------- Check, claim, delete

  lemma CheckKeepsReady(s: System, id: JobId, w: WorkerId)
    requires Ready(s, id, w)
    ensures Enabled(s, DeleteRead(id)) && Ready(Next(s, DeleteRead(id)), id, w)
    ensures id in Next(s, DeleteRead(id)).deletesRead
  {
  }

  lemma DeleteIsEnabled(s: System, id: JobId)
    requires id in s.deletesRead
    ensures Enabled(s, DeleteWrite(id)) && id !in Next(s, DeleteWrite(id)).jobs
  {
  }

  /** A running job can be deleted: it is claimed after the check. */
  lemma RunningJobDeleted(id: JobId, w: WorkerId) returns (states: seq<System>, steps: seq<Step>, k: nat)
    ensures IsRun(states, steps) && k < |steps| && steps[k] == DeleteWrite(id)
    ensures id in states[k].jobs && states[k].jobs[id].status == Running && id !in states[k + 1].jobs
  {
    hide Next, Enabled;
    states, steps := ReadyRun(id, w);
    CheckKeepsReady(states[|steps|], id, w);
    states, steps := Grow(states, steps, DeleteRead(id));
    ClaimMakesBusy(states[|steps|], id, w);
    states, steps := Grow(states, steps, ClaimBy(w, id));
    DeleteIsEnabled(states[|steps|], id);
    k := |steps|;
    states, steps := Grow(states, steps, DeleteWrite(id));
  }

  // ---------- Heartbeat read, success, heartbeat write

  lemma ReadKeepsBusy(s: System, id: JobId, w: WorkerId)
    requires Busy(s, id, w)
    ensures Enabled(s, BeatRead(id, w)) && Busy(Next(s, BeatRead(id, w)), id, w) && id in Next(s, BeatRead(id, w)).beatsRead
  {
  }

  lemma BeatWriteIsEnabled(s: System, id: JobId)
    requires id in s.beatsRead
    ensures Enabled(s, BeatWrite(id, 90.0))
  {
  }

  /** The heartbeat thread writes after its worker has finished: an ended job carries a lease. */
  lemma StrayBeatHappens(id: JobId, w: WorkerId) returns (states: seq<System>, steps: seq<Step>, k: nat)
    ensures IsRun(states, steps) && k < |steps| && StrayBeat(states[k], steps[k])
    ensures !RowsUpTo(states, |states|, LeaseExact)
  {
    hide Next, Enabled;
    states, steps := BusyRun(id, w);
    ReadKeepsBusy(states[|steps|], id, w);
    states, steps := Grow(states, steps, BeatRead(id, w));
    SuccessIsRecorded(states[|steps|], id, w);
    states, steps := Grow(states, steps, Succeed(w, 0, false));
    BeatWriteIsEnabled(states[|steps|], id);
    k := |steps|;
    states, steps := Grow(states, steps, BeatWrite(id, 90.0));
    LeaseExactlyWhileRunning(states, steps, |steps|);
  }

  // ---------- Two save calls

  lemma SavesAreEnabled(s: System, id: JobId)
    requires id in s.jobs && s.jobs[id].status == Succeeded && s.jobs[id].resultRunId.None? && s.savesRead == map[]
    ensures Enabled(s, SaveRead(0, id))
    ensures var one := Next(s, SaveRead(0, id));
            && Enabled(one, SaveRead(1, id))
            && Next(one, SaveRead(1, id)).jobs == s.jobs && Next(one, SaveRead(1, id)).savesRead == map[0 := id, 1 := id]
  {
  }

  lemma FirstSave(s: System, id: JobId)
    requires id in s.jobs && s.savesRead == map[0 := id, 1 := id]
    ensures Enabled(s, SaveWrite(0, 7))
    ensures var after := Next(s, SaveWrite(0, 7));
            && id in after.jobs && after.jobs[id].resultRunId == Some(7)
            && 1 in after.savesRead && after.savesRead[1] == id && Enabled(after, SaveWrite(1, 8))
  {
  }

  lemma SecondSave(s: System, id: JobId)
    requires id in s.jobs && 1 in s.savesRead && s.savesRead[1] == id
    ensures Enabled(s, SaveWrite(1, 8)) && id in Next(s, SaveWrite(1, 8)).jobs
    ensures Next(s, SaveWrite(1, 8)).jobs[id].resultRunId == Some(8)
  {
  }

  /** Two save calls that both found no run both store one, and the second replaces the first. */
  lemma SavedRunIsReplaced(id: JobId, w: WorkerId) returns (states: seq<System>, steps: seq<Step>, k: nat)
    ensures IsRun(states, steps) && k < |steps| && steps[k].SaveWrite? && id in states[k].jobs && id in states[k + 1].jobs
    ensures states[k].jobs[id].resultRunId == Some(7) && states[k + 1].jobs[id].resultRunId == Some(8)
  {
    hide Next, Enabled;
    states, steps := BusyRun(id, w);
    SuccessIsRecorded(states[|steps|], id, w);
    states, steps := Grow(states, steps, Succeed(w, 0, false));
    SavesAreEnabled(states[|steps|], id);
    states, steps := Grow(states, steps, SaveRead(0, id));
    states, steps := Grow(states, steps, SaveRead(1, id));
    FirstSave(states[|steps|], id);
    states, steps := Grow(states, steps, SaveWrite(0, 7));
    SecondSave(states[|steps|], id);
    k := |steps|;
    states, steps := Grow(states, steps, SaveWrite(1, 8));
  }

  // ---------- A worker stopped inside a progress call until its lease has run out

  /** Two idle workers and a new job that may be tried twice. */
  predicate Waiting(s: System, id: JobId, w: WorkerId, v: WorkerId) {
    && w != v && s.now == 0.0 && id in s.jobs && s.jobs[id] == NewJob(2, 0, 0.0)
    && w in s.workers && s.workers[w].Idle? && v in s.workers && s.workers[v].Idle?
  }

  /** `w` is in a progress call of its first attempt, `v` is idle. */
  predicate InCall(s: System, id: JobId, w: WorkerId, v: WorkerId) {
    && w != v && id in s.jobs && !s.jobs[id].cancelRequested && s.jobs[id].attempts == 1 && s.jobs[id].maxAttempts == 2
    && w in s.workers && s.workers[w] == Reporting(id, 1) && v in s.workers && s.workers[v].Idle?
  }

  lemma WaitingRun(id: JobId, w: WorkerId, v: WorkerId) returns (states: seq<System>, steps: seq<Step>)
    requires w != v
    ensures IsRun(states, steps) && Waiting(states[|steps|], id, w, v)
  {
    states, steps := Grow([EMPTY], [], AddJob(id, 2, 0));
    states, steps := Grow(states, steps, StartWorker(w));
    states, steps := Grow(states, steps, StartWorker(v));
  }

  lemma CallBegins(s: System, id: JobId, w: WorkerId, v: WorkerId)
    requires Waiting(s, id, w, v)
    ensures Enabled(s, ClaimBy(w, id))
    ensures var claimed := Next(s, ClaimBy(w, id));
            && Enabled(claimed, ProgressReadStep(w))
            && var after := Next(claimed, ProgressReadStep(w));
            && InCall(after, id, w, v) && OwnedBy(after.jobs[id], w)
            && after.now == 0.0 && after.jobs[id].leaseExpiresAt == Some(90.0)
  {
  }

  lemma LeaseRunsOut(s: System, id: JobId, w: WorkerId, v: WorkerId)
    requires InCall(s, id, w, v) && OwnedBy(s.jobs[id], w) && s.now == 0.0 && s.jobs[id].leaseExpiresAt == Some(90.0)
    ensures Enabled(s, Tick(91.0))
    ensures var late := Next(s, Tick(91.0));
            && Enabled(late, RecoverStep({}))
            && var after := Next(late, RecoverStep({}));
            InCall(after, id, w, v) && Claimable(after.jobs[id], after.now)
  {
  }

  lemma OtherSucceeds(s: System, id: JobId, w: WorkerId, v: WorkerId)
    requires InCall(s, id, w, v) && Claimable(s.jobs[id], s.now)
    ensures Enabled(s, ClaimBy(v, id))
    ensures var claimed := Next(s, ClaimBy(v, id));
            && Enabled(claimed, Succeed(v, 0, false))
            && var after := Next(claimed, Succeed(v, 0, false));
            && id in after.jobs && after.jobs[id].status == Succeeded
            && w in after.workers && after.workers[w] == Reporting(id, 1)
  {
  }

  /**
    A worker is stopped inside a progress call until its lease has run out; another worker takes the job
    over and succeeds; the first one then writes its progress, and the succeeded job has lost its document.
  */
  lemma StrayProgressHappens(id: JobId, w: WorkerId, v: WorkerId) returns (states: seq<System>, steps: seq<Step>, k: nat)
    requires w != v
    ensures IsRun(states, steps) && k < |steps| && StrayProgress(states[k], steps[k])
    ensures !RowsUpTo(states, |states|, ResultExact)
  {
    hide Next, Enabled;
    states, steps := WaitingRun(id, w, v);
    CallBegins(states[|steps|], id, w, v);
    states, steps := Grow(states, steps, ClaimBy(w, id));
    states, steps := Grow(states, steps, ProgressReadStep(w));
    LeaseRunsOut(states[|steps|], id, w, v);
    states, steps := Grow(states, steps, Tick(91.0));
    states, steps := Grow(states, steps, RecoverStep({}));
    OtherSucceeds(states[|steps|], id, w, v);
    states, steps := Grow(states, steps, ClaimBy(v, id));
    states, steps := Grow(states, steps, Succeed(v, 0, false));
    WriteIsEnabled(states[|steps|], w);
    k := |steps|;
    states, steps := Grow(states, steps, ProgressWriteStep(w, 0));
    SucceededKeepsItsDocument(states, steps, |steps|);
  }

  lemma WriteIsEnabled(s: System, w: WorkerId)
    requires w in s.workers && s.workers[w].Reporting?
    ensures Enabled(s, ProgressWriteStep(w, 0))
  {
  }
}
