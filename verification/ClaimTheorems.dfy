/** What claims, reads, marks and insertions of any number of processes do to one job, over all runs. */
module ClaimTheorems {
  import opened Wrappers
  import opened JobTable
  import opened JobJoin
  import opened ClaimProtocol
  import SqlStore

  // ----- steps of a run -----

  ghost predicate Takes(run: seq<World>, k: nat, step: Step)
  {
    k < |run| - 1 && Enabled(run[k], step) && run[k + 1] == Do(run[k], step)
  }

  lemma StepTaken(run: seq<World>, k: nat) returns (step: Step)
    requires IsRun(run) && k < |run| - 1
    ensures Takes(run, k, step)
  {
    assert StepAt(run, k);
    step :| Enabled(run[k], step) && run[k + 1] == Do(run[k], step);
  }

  // ----- what is claimed -----

  /** The call's claim, at any time: the rows it takes were due, and it passes over due rows only for enough older ones. */
  lemma ClaimsTheDue(w: World, guid: Guid, chosen: set<JobId>)
    requires Enabled(w, ClaimRows(guid, chosen))
    ensures var c, w' := w.calls[guid], Do(w, ClaimRows(guid, chosen));
            var threshold := c.thresholdTime - w.lockTimeout;
            && (forall id :: id in chosen ==>
                  id in w.rows && id in w'.rows && Due(w.rows[id], c.queues, c.lockTime, threshold)
                  && w'.rows[id] == w.rows[id].(lockGuid := Some(guid), lockClaimTime := Some(c.lockTime)))
            && (forall id :: id in w.rows && id !in chosen ==> id in w'.rows && w'.rows[id] == w.rows[id])
            && |chosen| <= c.fetchSize
            && forall id :: id in w.rows && Due(w.rows[id], c.queues, c.lockTime, threshold) && id !in chosen ==>
                 |chosen| == c.fetchSize && Older(w.rows, chosen, id)
  {
    var c := w.calls[guid];
    var threshold := c.thresholdTime - w.lockTimeout;
    EligibleAreDue(w.rows, c.queues, c.lockTime, threshold);
    forall id | id in w.rows && Due(w.rows[id], c.queues, c.lockTime, threshold) && id !in chosen
      ensures |chosen| == c.fetchSize && Older(w.rows, chosen, id)
    {
      PassedOver(w.rows, c.queues, c.lockTime, threshold, c.fetchSize, chosen, id);
    }
  }

  /** None of the chosen rows has a later date than the row. */
  ghost predicate Older(t: Table, chosen: set<JobId>, id: JobId)
    requires id in t
  {
    forall c :: c in chosen && c in t && MostRecentDate(t[c]).Some? ==>
      MostRecentDate(t[id]).Some? && MostRecentDate(t[c]).value <= MostRecentDate(t[id]).value
  }

  /** Two views of one call, of which the second may have come further. */
  ghost predicate SameCall(c: Call, c': Call)
  {
    c'.queues == c.queues && c'.fetchSize == c.fetchSize && c'.lockTime == c.lockTime && c'.thresholdTime == c.thresholdTime
  }

  /** A call is past its claim only since it claimed. */
  lemma StepKeepsCall(w: World, step: Step, guid: Guid)
    requires Enabled(w, step) && guid in Do(w, step).calls && Past(Do(w, step).calls[guid])
    ensures guid in w.calls && SameCall(w.calls[guid], Do(w, step).calls[guid])
    ensures w.lockTimeout == Do(w, step).lockTimeout
    ensures if Past(w.calls[guid]) then w.calls[guid].claimed == Do(w, step).calls[guid].claimed
            else step == ClaimRows(guid, Do(w, step).calls[guid].claimed)
  {
    hide IsTake, Product, ExecuteJoinQuery, EligibleFor, Enumerates;
  }

  lemma {:induction false} ClaimedBefore(run: seq<World>, i: nat, guid: Guid) returns (k: nat)
    requires IsRun(run) && i < |run| && guid in run[i].calls && Past(run[i].calls[guid])
    ensures k < i && Takes(run, k, ClaimRows(guid, run[i].calls[guid].claimed))
    ensures SameCall(run[k].calls[guid], run[i].calls[guid]) && run[k].lockTimeout == run[i].lockTimeout
  {
    hide Enabled, Do;
    assert i > 0;
    var step := StepTaken(run, i - 1);
    StepKeepsCall(run[i - 1], step, guid);
    if Past(run[i - 1].calls[guid]) {
      k := ClaimedBefore(run, i - 1, guid);
    } else {
      k := i - 1;
    }
  }

  /** Every job that a call ever returns was due when the call claimed it. */
  lemma ReturnedWereDue(run: seq<World>, i: nat, guid: Guid, n: nat) returns (k: nat)
    requires IsRun(run) && i < |run| && guid in run[i].calls && run[i].calls[guid].phase.Returned?
    requires n < |run[i].calls[guid].jobs|
    ensures k < i && Takes(run, k, ClaimRows(guid, run[i].calls[guid].claimed))
    ensures var c, id := run[i].calls[guid], run[i].calls[guid].jobs[n].id;
            && id in c.claimed && id in run[k].rows
            && Due(run[k].rows[id], c.queues, c.lockTime, c.thresholdTime - run[k].lockTimeout)
  {
    hide Inv, Enabled, Do, IsRun, Due;
    k := ClaimedBefore(run, i, guid);
    RunInv(run, i);
    ReturnedAreClaimed(run[i], guid, n);
    ClaimsTheDue(run[k], guid, run[i].calls[guid].claimed);
  }

  lemma ReturnedAreClaimed(w: World, guid: Guid, n: nat)
    requires Inv(w) && guid in w.calls && w.calls[guid].phase.Returned? && n < |w.calls[guid].jobs|
    ensures w.calls[guid].jobs[n].id in w.calls[guid].claimed && w.calls[guid].jobs[n].id in w.rows
    ensures !w.rows[w.calls[guid].jobs[n].id].status.Inserting?
    ensures w.calls[guid].lockTime <= w.clock
  {
    assert CallOk(w, guid);
    var p, id := w.calls[guid].claimIndex, w.calls[guid].jobs[n].id;
    assert IsClaim(w.log, p) && id in w.log[p].ids;
  }

  // ----- the columns that stay -----

  lemma StepKeepsJob(w: World, step: Step, id: JobId)
    requires Enabled(w, step) && id in w.rows
    ensures id in Do(w, step).rows && SameJob(w.rows[id], Do(w, step).rows[id])
  {
    hide IsTake, Product, ExecuteJoinQuery;
  }

  lemma {:induction false} RunKeepsJob(run: seq<World>, i: nat, k: nat, id: JobId)
    requires IsRun(run) && i <= k < |run| && id in run[i].rows
    ensures id in run[k].rows && SameJob(run[i].rows[id], run[k].rows[id])
    decreases k
  {
    hide Enabled, Do;
    if i < k {
      RunKeepsJob(run, i, k - 1, id);
      var step := StepTaken(run, k - 1);
      StepKeepsJob(run[k - 1], step, id);
    }
  }

  /** The job's columns, as it was returned, are those of its row. */
  ghost predicate AsStored(w: World, guid: Guid, n: nat)
    requires guid in w.calls && n < |w.calls[guid].jobs|
  {
    var job := w.calls[guid].jobs[n];
    job.id in w.rows && SameJob(w.rows[job.id], job.meta)
  }

  lemma ReadAsStored(w: World, guid: Guid, ids: seq<JobId>, joined: seq<JoinedRow>, n: nat)
    requires Enabled(w, ReadRows(guid, ids, joined)) && n < |ExecuteJoinQuery(joined)|
    ensures AsStored(Do(w, ReadRows(guid, ids, joined)), guid, n)
  {
    hide ExecuteJoinQuery, Product;
    assert forall k :: 0 <= k < |ids| ==> ids[k] in w.rows;
    SqlStore.ReadsOne(joined, ids, w.rows, w.params, w.generics, n);
  }

  lemma {:induction false} ReturnedAsStored(run: seq<World>, i: nat, guid: Guid, n: nat)
    requires IsRun(run) && i < |run| && guid in run[i].calls && run[i].calls[guid].phase.Returned?
    requires n < |run[i].calls[guid].jobs|
    ensures AsStored(run[i], guid, n)
  {
    hide ExecuteJoinQuery, Product, IsTake, Enumerates, ApplyMark, Claim, SameJob;
    assert i > 0;
    var step := StepTaken(run, i - 1);
    var w := run[i - 1];
    if guid in w.calls && w.calls[guid].phase.Returned? {
      ReturnedAsStored(run, i - 1, guid, n);
      StepKeepsJob(w, step, w.calls[guid].jobs[n].id);
      SameJobTwice(w.rows[w.calls[guid].jobs[n].id], run[i].rows[w.calls[guid].jobs[n].id], w.calls[guid].jobs[n].meta);
    } else {
      ReadAsStored(w, guid, step.ids, step.joined, n);
    }
  }

  lemma SameJobTwice(r: Row, r': Row, meta: Row)
    requires SameJob(r, r') && SameJob(r, meta)
    ensures SameJob(r', meta)
  {
  }

  /**
   A job added and fetched later, by whatever call, comes back with the queue, method, type, start time and
   retry settings that it was given.
   */
  lemma ReturnedAsAdded(run: seq<World>, i: nat, k: nat, job: SqlStore.SerializableOddJob, row: Row, guid: Guid, n: nat)
    requires IsRun(run) && Takes(run, i, BeginAdd(job.jobId, job.def, row)) && SqlStore.Describes(row, job)
    requires k < |run| && guid in run[k].calls && run[k].calls[guid].phase.Returned?
    requires n < |run[k].calls[guid].jobs| && run[k].calls[guid].jobs[n].id == job.jobId
    ensures i < k && SqlStore.Describes(run[k].calls[guid].jobs[n].meta, job)
    ensures job.executionTime.Some? ==> job.executionTime.value <= run[k].calls[guid].lockTime
  {
    hide Product, ExecuteJoinQuery, IsTake, Enumerates;
    var returned := run[k].calls[guid].jobs[n];
    ReturnedAsStored(run, k, guid, n);
    if k <= i {
      RunKeepsJob(run, k, i, job.jobId);
    }
    assert run[i + 1].rows[job.jobId] == row;
    RunKeepsJob(run, i + 1, k, job.jobId);
    var p := ReturnedWereDue(run, k, guid, n);
    if p <= i {
      RunKeepsJob(run, p, i, job.jobId);
    }
    RunKeepsJob(run, i + 1, p, job.jobId);
  }

  // ----- waiting for a retry -----

  /** The row was attempted, or put back, at `t` or later. */
  predicate Waiting(r: Row, t: Time, wait: int)
  {
    r.lastAttempt.Some? && r.lastAttempt.value >= t && r.minRetryWait == wait && !r.status.New? && !r.status.Inserting?
  }

  lemma StepKeepsWaiting(w: World, step: Step, id: JobId, t: Time, wait: int)
    requires Inv(w) && Enabled(w, step) && id in w.rows && Waiting(w.rows[id], t, wait) && t <= w.clock
    ensures id in Do(w, step).rows && Waiting(Do(w, step).rows[id], t, wait) && t <= Do(w, step).clock
  {
    hide IsTake, Product, ExecuteJoinQuery, Calls, Held, Published, Leases, Exclusive, Timed, Written;
  }

  lemma {:induction false} RunKeepsWaiting(run: seq<World>, i: nat, k: nat, id: JobId, t: Time, wait: int)
    requires IsRun(run) && i <= k < |run| && id in run[i].rows && Waiting(run[i].rows[id], t, wait) && t <= run[i].clock
    ensures id in run[k].rows && Waiting(run[k].rows[id], t, wait)
    ensures t <= run[k].clock
    decreases k
  {
    hide Enabled, Do, Inv, Init, Waiting;
    if i < k {
      RunKeepsWaiting(run, i, k - 1, id, t, wait);
      RunInv(run, k - 1);
      var step := StepTaken(run, k - 1);
      StepKeepsWaiting(run[k - 1], step, id, t, wait);
    }
  }

  /**
   A job that is put back for retry at time t is claimed by no call before t plus its retry wait, whoever put
   it back and whatever happens in between.
   */
  lemma RetryWaits(run: seq<World>, i: nat, k: nat, id: JobId, caller: Guid, index: nat, guid: Guid, chosen: set<JobId>)
    requires IsRun(run) && i < k && Takes(run, i, Apply(MarkRetry(id), caller, index))
    requires Takes(run, k, ClaimRows(guid, chosen)) && id in chosen
    ensures id in run[i].rows && run[k].calls[guid].lockTime >= run[i].clock + run[i].rows[id].minRetryWait
    ensures run[k].clock >= run[i].clock + run[i].rows[id].minRetryWait
  {
    hide IsTake, Product, ExecuteJoinQuery, Inv;
    RunInv(run, i);
    ReturnedAreClaimed(run[i], caller, index);
    MarkedExactly(run[i].rows, MarkRetry(id), run[i].clock);
    var wait := run[i].rows[id].minRetryWait;
    RunKeepsWaiting(run, i + 1, k, id, run[i].clock, wait);
    ClaimsTheDue(run[k], guid, chosen);
    RunInv(run, k);
    CallsAreTimed(run[k], guid);
  }

  lemma CallsAreTimed(w: World, guid: Guid)
    requires Inv(w) && guid in w.calls
    ensures w.calls[guid].lockTime <= w.clock
  {
    assert CallOk(w, guid);
  }
}
