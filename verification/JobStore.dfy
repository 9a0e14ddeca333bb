/**
  The job store: rows that the source's functions change in place inside a
  transaction. Every method is proved to do to its rows exactly what the
  row events of `JobRow` say, and to leave all other rows alone.
  Source: backend/services/simulation_job_store.py
*/
module JobStore {
  import opened Wrappers
  import opened JobRow
  import opened JobOutcomes

  type JobId = nat

  class SimulationJob {
    var status: Status
    var attempts: nat
    var maxAttempts: nat
    var nextAttemptAt: Option<Time>
    var workerId: Option<WorkerId>
    var heartbeatAt: Option<Time>
    var leaseExpiresAt: Option<Time>
    var cancelRequested: bool
    var failureType: Option<FailureType>
    var errorMessage: Option<Message>
    var result: Option<ResultJson>
    var resultRunId: Option<nat>
    var priority: int
    var queuedAt: Time
    var startedAt: Option<Time>
    var finishedAt: Option<Time>
    var updatedAt: Time

    function View(): Job
      reads this
    {
      Job(status, attempts, maxAttempts, nextAttemptAt, workerId, heartbeatAt, leaseExpiresAt,
          cancelRequested, failureType, errorMessage, result, resultRunId, priority, queuedAt,
          startedAt, finishedAt, updatedAt)
    }

    constructor (maxAttempts: nat, priority: int, now: Time)
      ensures View() == NewJob(maxAttempts, priority, now)
    {
      this.status, this.attempts, this.maxAttempts := Queued, 0, maxAttempts;
      this.nextAttemptAt, this.workerId, this.heartbeatAt, this.leaseExpiresAt := None, None, None, None;
      this.cancelRequested, this.failureType, this.errorMessage := false, None, None;
      this.result, this.resultRunId, this.priority := None, None, priority;
      this.queuedAt, this.startedAt, this.finishedAt, this.updatedAt := now, None, None, now;
    }

    method Renew(lease: Time, now: Time)
      modifies this
      ensures View() == JobRow.Renew(old(View()), now, lease)
    {
      heartbeatAt := Some(now);
      leaseExpiresAt := Some(now + lease);
      updatedAt := now;
    }

    method Release(now: Time)
      modifies this
      ensures View() == JobRow.Release(old(View()), now)
    {
      workerId := None;
      heartbeatAt := None;
      leaseExpiresAt := None;
      updatedAt := now;
    }

    method WriteProgress(progress: nat, now: Time)
      modifies this
      ensures View() == JobRow.WriteProgress(old(View()), progress, now)
    {
      result := Some(Progress(progress));
      updatedAt := now;
    }

    method Claim(worker: WorkerId, lease: Time, now: Time)
      modifies this
      ensures View() == JobRow.Claim(old(View()), worker, now, lease)
      ensures ClaimedAs(old(View()), View(), worker, now, lease)
    {
      Renew(lease, now);
      status := Running;
      startedAt := Some(now);
      attempts := attempts + 1;
      workerId := Some(worker);
      nextAttemptAt := None;
      failureType := None;
    }

    method AskCancel(now: Time)
      modifies this
      ensures View() == JobRow.AskCancel(old(View()), now)
      ensures AskedAs(old(View()), View(), now)
    {
      if status == Queued {
        status := Cancelled;
        cancelRequested := true;
        failureType := Some(UserCancelled);
        finishedAt := Some(now);
      } else if status == Running {
        cancelRequested := true;
      }
      updatedAt := now;
    }

    method Recover(now: Time)
      modifies this
      ensures View() == JobRow.Recover(old(View()), now)
      ensures RecoveredAs(old(View()), View(), now)
    {
      RecoveryOutcome(View(), now);
      hide RecoveredAs;
      Release(now);
      result := None;
      if cancelRequested {
        status := Cancelled;
        failureType := Some(UserCancelled);
        finishedAt := Some(now);
      } else if attempts >= maxAttempts {
        status := Failed;
        failureType := Some(WorkerLost);
        errorMessage := Some(LeaseExpiredFinal);
        finishedAt := Some(now);
      } else {
        status := Queued;
        failureType := Some(WorkerLost);
        errorMessage := Some(LeaseExpiredRetry);
        nextAttemptAt := Some(now);
        startedAt := None;
        finishedAt := None;
      }
    }

    method FailAttempt(report: FailureReport, policy: RetryPolicy, now: Time)
      modifies this
      ensures View() == JobRow.FailAttempt(old(View()), report, policy, now)
      ensures FailedAs(old(View()), View(), report, policy, now)
    {
      FailureOutcome(View(), report, policy, now);
      hide FailedAs, RetryDelay;
      Release(now);
      result := DocumentOf(report.document);
      errorMessage := Some(report.message);
      failureType := Some(report.kind);
      if cancelRequested {
        status := Cancelled;
        failureType := Some(UserCancelled);
        finishedAt := Some(now);
      } else if report.retryable && attempts < maxAttempts {
        var delay := RetryDelay(attempts, policy);
        status := Queued;
        nextAttemptAt := Some(now + delay as real);
        startedAt := None;
        finishedAt := None;
      } else {
        status := Failed;
        finishedAt := Some(now);
      }
    }

    method Finish(finalStatus: Status, outcome: FinishReport, now: Time)
      modifies this
      ensures View() == JobRow.Finish(old(View()), finalStatus, outcome, now)
      ensures FinishedAs(old(View()), View(), finalStatus, outcome, now)
    {
      FinishOutcome(View(), finalStatus, outcome, now);
      hide FinishedAs;
      Release(now);
      var newStatus, final := finalStatus, outcome;
      if cancelRequested && newStatus != Cancelled {
        newStatus := Cancelled;
        final := CANCELLED_REPORT;
      }
      status := newStatus;
      result := DocumentOf(final.document);
      resultRunId := final.run;
      errorMessage := final.message;
      failureType := final.kind;
      nextAttemptAt := None;
      finishedAt := Some(now);
    }
  }

  /** `id` is a row the claim query may return: ready, unlocked, of the highest priority, oldest first. */
  ghost predicate IsNextClaim(rows: map<JobId, Job>, locked: set<JobId>, now: Time, id: JobId) {
    && id in rows && id !in locked && Claimable(rows[id], now)
    && forall other :: other in rows && other !in locked && Claimable(rows[other], now) ==>
         RanksAtLeast(rows[id], rows[other])
  }

  /** ORDER BY priority DESC, queued_at */
  predicate RanksAtLeast(a: Job, b: Job) {
    a.priority > b.priority || (a.priority == b.priority && a.queuedAt <= b.queuedAt)
  }

  class Store {
    var rows: map<JobId, SimulationJob>

    ghost predicate Valid()
      reads this
    {
      forall i, j :: i in rows && j in rows && i != j ==> rows[i] != rows[j]
    }

    ghost function Rows(): (r: map<JobId, Job>)
      reads this, rows.Values
    {
      map i | i in rows :: rows[i].View()
    }

    constructor ()
      ensures Valid() && Rows() == map[]
    {
      rows := map[];
    }

    method Add(id: JobId, maxAttempts: nat, priority: int, now: Time)
      requires Valid() && id !in rows
      modifies this
      ensures Valid() && fresh(rows.Values - old(rows.Values))
      ensures Rows() == old(Rows())[id := NewJob(maxAttempts, priority, now)]
    {
      var row := new SimulationJob(maxAttempts, priority, now);
      rows := rows[id := row];
      assert forall v :: v in rows.Values ==> v == row || v in old(rows.Values);
    }

    /** The claim query: scans the rows and keeps the best ready one, skipping locked rows. */
    method SelectNextClaim(locked: set<JobId>, now: Time) returns (chosen: Option<JobId>)
      requires Valid()
      ensures chosen.Some? ==> IsNextClaim(Rows(), locked, now, chosen.value)
      ensures chosen.None? ==>
                forall id :: id in Rows() && id !in locked ==> !Claimable(Rows()[id], now)
    {
      chosen := None;
      var pending := rows.Keys;
      while pending != {}
        invariant pending <= rows.Keys
        invariant chosen.Some? ==>
            chosen.value in rows && chosen.value !in locked && Claimable(rows[chosen.value].View(), now)
        invariant forall id :: id in rows && id !in pending && id !in locked && Claimable(rows[id].View(), now) ==>
                    chosen.Some? && RanksAtLeast(rows[chosen.value].View(), rows[id].View())
      {
        var id :| id in pending;
        pending := pending - {id};
        if id !in locked && Claimable(rows[id].View(), now) {
          if chosen.None? || !RanksAtLeast(rows[chosen.value].View(), rows[id].View()) {
            chosen := Some(id);
          }
        }
      }
    }

    method ClaimNext(worker: WorkerId, lease: Time, now: Time, locked: set<JobId>) returns (claimed: Option<JobId>)
      requires Valid()
      modifies rows.Values
      ensures Valid() && rows == old(rows)
      ensures claimed.None? ==> Rows() == old(Rows())
      ensures claimed.None? ==>
                forall id :: id in Rows() && id !in locked ==> !Claimable(Rows()[id], now)
      ensures claimed.Some? ==> IsNextClaim(old(Rows()), locked, now, claimed.value)
      ensures claimed.Some? ==>
                Rows() == old(Rows())[claimed.value :=
                  ApplyRow(old(Rows())[claimed.value], Claimed(worker, now, lease))]
      ensures claimed.Some? ==>
                forall other :: other in old(Rows()) && other !in locked && Claimable(old(Rows())[other], now) ==>
                  var mine, its := old(Rows())[claimed.value], old(Rows())[other];
                  its.priority < mine.priority || (its.priority == mine.priority && mine.queuedAt <= its.queuedAt)
      ensures claimed.Some? ==> ClaimedAs(old(Rows())[claimed.value], Rows()[claimed.value], worker, now, lease)
    {
      claimed := SelectNextClaim(locked, now);
      if claimed.Some? {
        rows[claimed.value].Claim(worker, lease, now);
      }
    }

    method Heartbeat(id: JobId, worker: WorkerId, lease: Time, now: Time) returns (renewed: bool)
      requires Valid()
      modifies rows.Values
      ensures Valid() && rows == old(rows)
      ensures renewed == (id in old(Rows()) && OwnedBy(old(Rows())[id], worker))
      ensures renewed ==>
                Rows()[id] == old(Rows())[id].(heartbeatAt := Some(now), leaseExpiresAt := Some(now + lease), updatedAt := now)
      ensures Rows() == UpdateRow(old(Rows()), id, Beaten(worker, now, lease))
    {
      if id !in rows || rows[id].status != Running || rows[id].workerId != Some(worker) {
        return false;
      }
      rows[id].Renew(lease, now);
      return true;
    }

    method IsCancelRequested(id: JobId, caller: Option<WorkerId>) returns (stop: bool)
      requires Valid()
      ensures stop == ShouldStop(if id in Rows() then Some(Rows()[id]) else None, caller)
      ensures !stop <==>
                && id in Rows() && Rows()[id].status == Running && !Rows()[id].cancelRequested
                && (caller.Some? ==> Rows()[id].workerId == caller)
    {
      if id !in rows || rows[id].status != Running {
        return true;
      }
      if caller.Some? && rows[id].workerId != caller {
        return true;
      }
      return rows[id].cancelRequested;
    }

    method RequestCancellation(id: JobId, now: Time) returns (cancelled: bool)
      requires Valid()
      modifies rows.Values
      ensures Valid() && rows == old(rows)
      ensures cancelled == (id in Rows() && Rows()[id].status == Cancelled)
      ensures id in rows ==> AskedAs(old(Rows())[id], Rows()[id], now)
      ensures Rows() == UpdateRow(old(Rows()), id, CancelAsked(now))
    {
      if id !in rows {
        return false;
      }
      rows[id].AskCancel(now);
      return rows[id].status == Cancelled;
    }

    /** The recovery query: every unlocked row whose lease has run out. */
    method SelectExpired(now: Time, locked: set<JobId>) returns (expired: set<JobId>)
      requires Valid()
      ensures expired == ExpiredIds(Rows(), locked, now)
    {
      expired := set id | id in rows && id !in locked && Expired(rows[id].View(), now);
    }

    method RecoverExpired(now: Time, locked: set<JobId>) returns (recovered: nat)
      requires Valid()
      modifies rows.Values
      ensures Valid() && rows == old(rows)
      ensures Rows() == RecoverRows(old(Rows()), locked, now)
      ensures recovered == |ExpiredIds(old(Rows()), locked, now)|
      ensures RecoveredEach(old(Rows()), locked, now, Rows())
    {
      hide LeavesRow, RecoveredEach;
      ghost var before := Rows();
      EachIsRecovered(before, locked, now);
      var expired := SelectExpired(now, locked);
      var pending := expired;
      while pending != {}
        invariant rows == old(rows) && pending <= expired
        invariant Rows() == RecoverAll(before, expired - pending, now)
      {
        var id :| id in pending;
        RecoverAllStep(before, expired, pending, id, now);
        RecoverOne(id, now);
        pending := pending - {id};
      }
      assert expired - pending == expired;
      return |expired|;
    }

    method RecoverOne(id: JobId, now: Time)
      requires Valid() && id in rows
      modifies rows.Values
      ensures rows == old(rows)
      ensures Rows() == old(Rows())[id := JobRow.Recover(old(Rows())[id], now)]
    {
      rows[id].Recover(now);
    }

    method UpdateProgress(id: JobId, progress: nat, caller: Option<WorkerId>, now: Time)
      requires Valid()
      modifies rows.Values
      ensures Valid() && rows == old(rows)
      ensures Rows() == UpdateRow(old(Rows()), id, ProgressMade(caller, progress, now))
    {
      if id in rows && rows[id].status == Running && (caller.None? || rows[id].workerId == caller) {
        rows[id].WriteProgress(progress, now);
      }
    }

    method HandleFailure(id: JobId, report: FailureReport, policy: RetryPolicy, caller: Option<WorkerId>, now: Time)
      returns (updated: bool)
      requires Valid()
      modifies rows.Values
      ensures Valid() && rows == old(rows)
      ensures updated == (id in old(Rows()) && CanUpdate(old(Rows())[id], caller))
      ensures Rows() == UpdateRow(old(Rows()), id, AttemptFailed(caller, report, policy, now))
      ensures updated ==> FailedAs(old(Rows())[id], Rows()[id], report, policy, now)
    {
      if id !in rows || !CanUpdate(rows[id].View(), caller) {
        return false;
      }
      rows[id].FailAttempt(report, policy, now);
      return true;
    }

    method UpdateFinished(id: JobId, finalStatus: Status, outcome: FinishReport, caller: Option<WorkerId>, now: Time)
      returns (updated: bool)
      requires Valid()
      modifies rows.Values
      ensures Valid() && rows == old(rows)
      ensures updated == (id in old(Rows()) && CanUpdate(old(Rows())[id], caller))
      ensures Rows() == UpdateRow(old(Rows()), id, Finished(caller, finalStatus, outcome, now))
      ensures updated ==> FinishedAs(old(Rows())[id], Rows()[id], finalStatus, outcome, now)
    {
      if id !in rows || !CanUpdate(rows[id].View(), caller) {
        return false;
      }
      rows[id].Finish(finalStatus, outcome, now);
      return true;
    }

    /** The closing transaction of `save_simulation_job_result`: it re-reads the row but not its status. */
    method RecordSavedRun(id: JobId, run: nat, now: Time)
      requires Valid()
      modifies rows.Values
      ensures Valid() && rows == old(rows)
      ensures Rows() == UpdateRow(old(Rows()), id, RunSaved(run, now))
    {
      if id in rows {
        rows[id].resultRunId := Some(run);
        rows[id].updatedAt := now;
      }
    }

    method Delete(id: JobId) returns (deleted: bool)
      requires Valid()
      modifies this
      ensures Valid() && rows.Values <= old(rows.Values)
      ensures deleted == (id in old(Rows()) && old(Rows())[id].status != Running)
      ensures Rows() == if deleted then old(Rows()) - {id} else old(Rows())
    {
      if id !in rows || rows[id].status == Running {
        return false;
      }
      rows := rows - {id};
      return true;
    }
  }

  /** The table after one event on one row; a missing row stays missing. */
  function UpdateRow(rows: map<JobId, Job>, id: JobId, event: RowEvent): map<JobId, Job> {
    if id in rows then rows[id := ApplyRow(rows[id], event)] else rows
  }

  function ExpiredIds(rows: map<JobId, Job>, locked: set<JobId>, now: Time): set<JobId> {
    set id | id in rows && id !in locked && Expired(rows[id], now)
  }

  function RecoverAll(rows: map<JobId, Job>, ids: set<JobId>, now: Time): map<JobId, Job> {
    map id | id in rows :: if id in ids then Recover(rows[id], now) else rows[id]
  }

  lemma RecoverAllStep(rows: map<JobId, Job>, ids: set<JobId>, pending: set<JobId>, id: JobId, now: Time)
    requires id in pending && id in ids && id in rows
    ensures RecoverAll(rows, ids - (pending - {id}), now) ==
            RecoverAll(rows, ids - pending, now)[id := Recover(rows[id], now)]
    ensures RecoverAll(rows, ids - pending, now)[id] == rows[id]
  {
  }

  /** What a recovery pass leaves of every row: locked rows alone, the others by the state they were in. */
  ghost predicate RecoveredEach(before: map<JobId, Job>, locked: set<JobId>, now: Time, after: map<JobId, Job>) {
    && after.Keys == before.Keys
    && (forall id :: id in before && id in locked ==> after[id] == before[id])
    && (forall id :: id in before && id !in locked ==> LeavesRow(before[id], Recovered(now), after[id]))
  }

  lemma EachIsRecovered(rows: map<JobId, Job>, locked: set<JobId>, now: Time)
    ensures RecoveredEach(rows, locked, now, RecoverRows(rows, locked, now))
  {
    hide LeavesRow, ApplyRow, Expired;
    forall id | id in rows && id !in locked ensures LeavesRow(rows[id], Recovered(now), RecoverRows(rows, locked, now)[id]) {
      EventOutcome(rows[id], Recovered(now));
    }
  }

  /** Recovery as an event that every unlocked row receives; rows that are not expired ignore it. */
  function RecoverRows(rows: map<JobId, Job>, locked: set<JobId>, now: Time): (r: map<JobId, Job>)
    ensures r == RecoverAll(rows, ExpiredIds(rows, locked, now), now)
  {
    map id | id in rows :: if id in locked then rows[id] else ApplyRow(rows[id], Recovered(now))
  }
}
