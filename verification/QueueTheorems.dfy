/** What a queue guarantees, over all its runs. */
module QueueTheorems {
  import opened Wrappers
  import opened JobTable
  import opened Messages
  import opened Coordinator
  import opened MarkHistory
  import opened Mailboxes
  import opened QueueProtocol
  import opened QueueInvariant
  import opened QueueSteps

  // ----- shutdown -----

  /** Every mark is applied, and every job that was ever given to a worker has ended its last attempt. */
  ghost predicate Flushed(s: Sys)
  {
    && s.coord.pendingItems == 0
    && (forall w :: 0 <= w < |s.workers| ==> s.workers[w] == [])
    && (forall i :: 0 <= i < |s.inbox| ==> !HasJob(s.inbox[i]))
    && s.store == [] && AppliedMarks(s) == s.sent
    && forall j :: j in s.dispatched ==>
         && Last(s.sent, j).Some? && !Last(s.sent, j).value.MarkInProgress?
         && j in s.table && s.table[j].status == StatusOf(Last(s.sent, j).value)
  }

  lemma {:induction false} TimesMember(ids: seq<JobId>, j: JobId)
    requires j in ids
    ensures Times(ids, j) > 0
  {
    if ids[|ids| - 1] != j {
      TimesMember(ids[..|ids| - 1], j);
    }
  }

  lemma {:induction false} RunsNeedMarks(ms: seq<Mark>, j: JobId)
    requires Last(ms, j).None?
    ensures Runs(ms, j) == 0
  {
    if ms != [] {
      RunsNeedMarks(ms[..|ms| - 1], j);
    }
  }

  lemma EmptyAfterFlush(s: Sys)
    requires Shape(s) && Store(s) && Shutdown(s) && Counts(s) && s.notified
    ensures s.coord.pendingItems == 0
    ensures forall w :: 0 <= w < |s.workers| ==> s.workers[w] == []
    ensures forall i :: 0 <= i < |s.inbox| ==> !HasJob(s.inbox[i])
    ensures forall k :: Flight(s, k) == 0
    ensures s.store == [] && AppliedMarks(s) == s.sent == Plan(s)
  {
    FinishingMeansEmpty(s);
    NothingActive(s.workers, None);
    forall k
      ensures Flight(s, k) == 0
    {
      NothingActive(s.workers, k);
      NoneCarried(s.inbox, k);
      NoneTold(s.effects, k);
    }
    assert MarksIn(s.store) == [];
    assert s.sent[..s.applied] == s.sent;
  }

  lemma {:induction false} NoneTold(es: seq<Effect>, k: Option<JobId>)
    requires forall e :: e in es ==> !e.ToWorker?
    ensures Told(es, k) == 0
  {
    if es != [] {
      assert es[0] in es;
      NoneTold(es[1..], k);
    }
  }

  /**
   When the requester of a shutdown hears that the queue is down, nothing is pending anywhere, every
   dispatched job has reported, and the store shows the end of its last attempt.
   */
  lemma ShutdownFlushes(run: seq<Sys>, i: nat)
    requires IsRun(run) && i < |run| && run[i].notified
    ensures Flushed(run[i])
  {
    var s := run[i];
    RunInv(run, i);
    EmptyAfterFlush(s);
    forall j | j in s.dispatched
      ensures Last(s.sent, j).Some? && !Last(s.sent, j).value.MarkInProgress?
      ensures j in s.table && s.table[j].status == StatusOf(Last(s.sent, j).value)
    {
      TimesMember(s.dispatched, j);
      assert Attempts(s, j) == Runs(Plan(s), j);
      if Last(s.sent, j).None? {
        RunsNeedMarks(s.sent, j);
      }
      LastIsMember(s.sent, j);
      assert Mine(s, j) && RowBudget(s, j);
      assert Flight(s, Some(j)) == One(Running(Plan(s), j));
    }
  }

  lemma StepAfterShutdown(s: Sys, step: Step)
    requires Inv(s) && s.notified && Enabled(s, step)
    ensures var s' := Do(s, step); s'.notified && s'.sent == s.sent && s'.dispatched == s.dispatched
  {
    if step.Perform? {
      QuietEffects(s);
    }
  }

  lemma NextAfterShutdown(s: Sys, s': Sys)
    requires Inv(s) && s.notified && QueueProtocol.Next(s, s')
    ensures s'.notified && s'.sent == s.sent && s'.dispatched == s.dispatched
  {
    hide Inv;
    var step :| Enabled(s, step) && s' == Do(s, step);
    hide Enabled, Do;
    StepAfterShutdown(s, step);
  }

  lemma QuietEffects(s: Sys)
    requires Shutdown(s) && s.notified && s.effects != []
    ensures !s.effects[0].ToWorker? && !s.effects[0].ToStore?
  {
    assert s.effects[0] in s.effects;
  }

  /** After that the coordinator sends nothing to a worker or to the store, whatever still happens. */
  lemma {:induction false} ShutdownIsFinal(run: seq<Sys>, i: nat, k: nat)
    requires IsRun(run) && i <= k < |run| && run[i].notified
    ensures run[k].notified && run[k].sent == run[i].sent && run[k].dispatched == run[i].dispatched
    decreases k
  {
    hide Inv, QueueProtocol.Next, Init;
    if i < k {
      ShutdownIsFinal(run, i, k - 1);
      RunInv(run, k - 1);
      assert StepAt(run, k - 1);
      NextAfterShutdown(run[k - 1], run[k]);
    }
  }

  // ----- dispatch and marks -----

  /** No job is in flight twice; and when one is handed to a worker, nothing about it is under way. */
  lemma NoDoubleDispatch(run: seq<Sys>, i: nat, j: JobId)
    requires IsRun(run) && i < |run|
    ensures CarriedIn(run[i].inbox, Some(j)) + CarriedBy(run[i].workers, Some(j)) <= 1
    ensures run[i].effects != [] && run[i].effects[0].ToWorker? && run[i].effects[0].job.id == j ==>
              CarriedIn(run[i].inbox, Some(j)) + CarriedBy(run[i].workers, Some(j)) == 0
  {
    RunInv(run, i);
    assert Flight(run[i], Some(j)) == One(Running(Plan(run[i]), j));
  }

  /**
   The store applies the marks in the order sent: what it takes next is the first mark not yet applied.  That
   order is one of starts and ends for each job, and each row shows the latest mark applied to it.
   */
  lemma MarksAreOrdered(run: seq<Sys>, i: nat)
    requires IsRun(run) && i < |run|
    ensures var s := run[i];
            && s.applied <= |s.sent| && Ordered(s.sent) && Ordered(s.sent[..s.applied])
            && (s.store != [] && s.store[0].MarkJob? ==> s.applied < |s.sent| && s.store[0].mark == s.sent[s.applied])
            && forall j :: Mine(s, j) && Last(s.sent[..s.applied], j).Some? ==>
                 s.table[j].status == StatusOf(Last(s.sent[..s.applied], j).value)
  {
    var s := run[i];
    RunInv(run, i);
    OrderedPrefix(Plan(s), |s.sent|);
    assert Plan(s)[..|s.sent|] == s.sent;
    OrderedPrefix(s.sent, s.applied);
    if s.store != [] && s.store[0].MarkJob? {
      assert MarksIn(s.store) == [s.store[0].mark] + MarksIn(s.store[1..]);
      assert s.sent[s.applied..][0] == s.store[0].mark;
    }
    forall j | Mine(s, j) && Last(s.sent[..s.applied], j).Some?
      ensures s.table[j].status == StatusOf(Last(s.sent[..s.applied], j).value)
    {
      assert RowBudget(s, j);
    }
  }

  // ----- backpressure -----

  /**
   The pending counter counts exactly the requests queued or running and the results not yet read, plus
   the requests of the batch being dispatched; it stays below three times the number of workers.
   */
  lemma PendingIsExact(run: seq<Sys>, i: nat)
    requires IsRun(run) && i < |run|
    ensures var s := run[i];
            && s.coord.pendingItems == CarriedIn(s.inbox, None) + CarriedBy(s.workers, None) + Told(s.effects, None)
            && (Idle(s) ==> s.coord.pendingItems == CarriedIn(s.inbox, None) + CarriedBy(s.workers, None))
            && (s.coord.workerCount > 0 ==> 0 <= s.coord.pendingItems <= 3 * s.coord.workerCount - 1)
  {
    RunInv(run, i);
  }

  // ----- retries -----

  /** A job's row never exceeds its budget of retries, and a worker gets the job at most once more than that. */
  lemma RetryBudget(run: seq<Sys>, i: nat, j: JobId)
    requires IsRun(run) && i < |run| && Mine(run[i], j)
    ensures 0 <= run[i].table[j].retryCount <= Budget(run[i].table[j].maxRetries)
    ensures run[i].table[j].status.Retry? ==> run[i].table[j].maxRetries >= run[i].table[j].retryCount
    ensures Times(run[i].dispatched, j) <= Budget(run[i].table[j].maxRetries) + 1
  {
    var s := run[i];
    RunInv(run, i);
    assert RowBudget(s, j);
    RunsBoundedByRetries(Plan(s), j);
    assert Attempts(s, j) == Runs(Plan(s), j);
    assert AppliedMarks(s) == Plan(s)[..|AppliedMarks(s)|];
    RetriesGrow(Plan(s), |AppliedMarks(s)|, j);
  }

  /** The dispatches of a whole run, bounded by the budgets of the queue's jobs. */
  lemma DispatchesAreBounded(run: seq<Sys>, i: nat, jobs: set<JobId>, limit: JobId -> nat)
    requires IsRun(run) && i < |run|
    requires forall j :: Mine(run[i], j) ==> j in jobs && limit(j) == Budget(run[i].table[j].maxRetries) + 1
    ensures |run[i].dispatched| <= Total(jobs, limit)
  {
    var s := run[i];
    RunInv(run, i);
    forall j | j in jobs
      ensures Runs(Plan(s), j) <= limit(j)
    {
      if Mine(s, j) {
        assert RowBudget(s, j);
        RunsBoundedByRetries(Plan(s), j);
      } else {
        assert forall m :: m in Plan(s) ==> m.id != j;
        NoMarks(Plan(s), j);
        RunsNeedMarks(Plan(s), j);
      }
    }
    DispatchesBounded(Plan(s), jobs, limit);
    CountsAgree(s.dispatched, Plan(s));
  }

  function Drop(ids: seq<JobId>, j: JobId): (r: seq<JobId>)
    ensures forall id :: id in r <==> id in ids && id != j
    ensures |r| + Times(ids, j) == |ids|
    ensures forall k :: k != j ==> Times(r, k) == Times(ids, k)
  {
    if ids == [] then [] else
    var n := |ids| - 1;
    var rest := Drop(ids[..n], j);
    assert ids == ids[..n] + [ids[n]];
    if ids[n] == j then rest else
    assert forall k :: Times(rest + [ids[n]], k) == Times(rest, k) + One(ids[n] == k) by {
      forall k { TimesSnoc(rest, ids[n], k); }
    }
    rest + [ids[n]]
  }

  /** A list in which no job occurs more often than it was started is no longer than the starts. */
  lemma {:induction false} CountsAgree(ids: seq<JobId>, ms: seq<Mark>)
    requires forall j :: Times(ids, j) <= Runs(ms, j)
    ensures |ids| <= AllRuns(ms)
    decreases |ids|
  {
    if ids != [] {
      var j := ids[|ids| - 1];
      var ids' := Drop(ids, j);
      assert Times(ids, j) > 0;
      var ms' := Without(ms, j);
      WithoutCounts(ms, j, j);
      NoneLeft(ids', j);
      forall k
        ensures Times(ids', k) <= Runs(ms', k)
      {
        if k != j {
          WithoutCounts(ms, j, k);
        }
      }
      CountsAgree(ids', ms');
    }
  }

  lemma {:induction false} NoneLeft(ids: seq<JobId>, j: JobId)
    requires j !in ids
    ensures Times(ids, j) == 0
  {
    if ids != [] {
      assert ids[|ids| - 1] in ids;
      NoneLeft(ids[..|ids| - 1], j);
    }
  }

  function Later(a: Time, b: Time): Time
  {
    if a < b then b else a
  }

  /** When the last of a row's reasons to wait is over: its start time, its retry wait, its lock. */
  function DueTime(r: Row, lockTimeout: int): Time
  {
    Later(OrMin(r.doNotExecuteBefore),
          Later(if r.lastAttempt.Some? then r.lastAttempt.value + r.minRetryWait else MIN_DATE,
                if r.lockClaimTime.Some? then r.lockClaimTime.value + lockTimeout + 1 else MIN_DATE))
  }

  /** No published row is stranded: from its due time on, the claim accepts it as it stands. */
  lemma NothingIsStranded(run: seq<Sys>, i: nat, j: JobId, now: Time)
    requires IsRun(run) && i < |run| && Mine(run[i], j)
    requires run[i].table[j].status.New? || run[i].table[j].status.Retry?
    requires DueTime(run[i].table[j], run[i].lockTimeout) <= now
    ensures Claimable(run[i].table[j], {run[i].queue}, now, now - run[i].lockTimeout)
  {
    RunInv(run, i);
    assert RowBudget(run[i], j);
  }
}
