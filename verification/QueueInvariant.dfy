/**
 What every reachable state of a queue satisfies.

 The counting invariants are about the plan: the marks already sent together with the marks that the
 current handler has still to send.  Performing an effect then changes nothing that is counted, so a
 worker may well finish a job before the store has heard that it was started.
 */
module QueueInvariant {
  import opened Wrappers
  import opened JobTable
  import opened Messages
  import opened Coordinator
  import opened MarkHistory
  import opened Mailboxes
  import opened QueueProtocol

  function Plan(s: Sys): seq<Mark>
  {
    s.sent + MarksOf(s.effects)
  }

  function AppliedMarks(s: Sys): seq<Mark>
  {
    if s.applied <= |s.sent| then s.sent[..s.applied] else s.sent
  }

  /** Requests waiting or running, results not read, and requests about to be sent. */
  function Flight(s: Sys, k: Option<JobId>): nat
  {
    CarriedIn(s.inbox, k) + CarriedBy(s.workers, k) + Told(s.effects, k)
  }

  /** How often the job was given to a worker, counting those times that the current handler still will. */
  function Attempts(s: Sys, j: JobId): nat
  {
    Times(s.dispatched, j) + Told(s.effects, Some(j))
  }

  predicate Mine(s: Sys, j: JobId)
  {
    j in s.table && s.table[j].queue == s.queue
  }

  /** The retry count of a job once all of the plan is applied. */
  function Promised(s: Sys, j: JobId): int
    requires j in s.table
  {
    s.table[j].retryCount - Retries(AppliedMarks(s), j) + Retries(Plan(s), j)
  }

  /** A job under way carries its row's retry limit and the count that the plan leads to. */
  predicate JobData(s: Sys, job: Job)
  {
    && Mine(s, job.id)
    && job.retry == Some(RetryParameters(s.table[job.id].maxRetries, Promised(s, job.id)))
  }

  // ----- the invariant, part by part -----

  predicate InboxMessage(m: Message)
  {
    m.ShutDownQueues? || m.QueueShutDown? || m.JobSweep? || m.SilentRetrySweep? || m.JobSucceeded? || m.JobFailed?
  }

  predicate WorkerMessage(m: Message)
  {
    m.ExecuteJobRequest? || m.ShutDownQueues?
  }

  predicate StoreMessage(m: Message)
  {
    m.GetJobs? || m.MarkJob? || m.ShutDownQueues?
  }

  ghost predicate Dispatching(es: seq<Effect>)
  {
    forall e :: e in es ==> e.ToWorker? || e.ToStore?
  }

  ghost predicate HandlerEffects(es: seq<Effect>, workerCount: nat)
  {
    || Dispatching(es)
    || es == [AskJobs(workerCount)] || es == [ToSelf] || es == [BroadcastShutDown]
    || es == [AskFlush, TellRequester] || es == [TellRequester]
  }

  ghost predicate Shape(s: Sys)
  {
    && |s.workers| == s.coord.workerCount
    && (forall i :: 0 <= i < |s.inbox| ==> InboxMessage(s.inbox[i]))
    && (forall w, i :: 0 <= w < |s.workers| && 0 <= i < |s.workers[w]| ==> WorkerMessage(s.workers[w][i]))
    && (forall i :: 0 <= i < |s.store| ==> StoreMessage(s.store[i]))
    && HandlerEffects(s.effects, s.coord.workerCount)
    && (s.wait.ForJobs? ==> s.effects == [])
    && (s.wait.ForFlush? ==> s.effects == [TellRequester])
    && (s.effects == [TellRequester] ==> s.wait.ForFlush? || s.flushed)
    && (s.flushed ==> s.effects != [AskFlush, TellRequester])
    && (s.reply.Some? ==> s.wait.ForJobs?)
  }

  /** Every job is under way at most once, exactly when the plan has started it; and all of them are counted. */
  ghost predicate Counts(s: Sys)
  {
    && Ordered(Plan(s))
    && s.coord.pendingItems == Flight(s, None)
    && (forall j :: Flight(s, Some(j)) == One(Running(Plan(s), j)))
    && (forall j :: Attempts(s, j) == Runs(Plan(s), j))
  }

  /** The job is somewhere on its way to a worker or back. */
  ghost predicate UnderWay(s: Sys, job: Job)
  {
    || JobSucceeded(job) in s.inbox || JobFailed(job) in s.inbox
    || (exists w :: 0 <= w < |s.workers| && ExecuteJobRequest(job) in s.workers[w])
    || ToWorker(job) in s.effects
  }

  ghost predicate Data(s: Sys)
  {
    forall job :: UnderWay(s, job) ==> JobData(s, job)
  }

  ghost predicate RowBudget(s: Sys, j: JobId)
    requires j in s.table
  {
    var r := s.table[j];
    && Retries(AppliedMarks(s), j) <= r.retryCount
    && Promised(s, j) <= Budget(r.maxRetries)
    && (Retries(Plan(s), j) > 0 ==> Promised(s, j) <= r.maxRetries)
    && (r.status.Retry? ==> r.retryCount <= r.maxRetries && r.lastAttempt.Some?)
    && (Last(AppliedMarks(s), j).Some? ==> r.status == StatusOf(Last(AppliedMarks(s), j).value))
  }

  ghost predicate Rows(s: Sys)
  {
    && (forall m :: m in Plan(s) ==> Mine(s, m.id))
    && (forall j :: Mine(s, j) ==> RowBudget(s, j))
  }

  ghost predicate Store(s: Sys)
  {
    && s.applied <= |s.sent|
    && MarksIn(s.store) == s.sent[s.applied..]
    && (s.claiming.Some? ==> s.store != [] && s.store[0].GetJobs?)
    && (forall i :: 0 <= i < |s.store| && s.store[i].GetJobs? ==>
          s.store[i].ask <= s.asked && s.store[i].fetchSize == s.coord.workerCount)
    && (s.wait.ForJobs? && s.reply.None? ==>
          s.store != [] && s.store[|s.store| - 1] == GetJobs(s.coord.workerCount, s.asked))
    && (s.wait.ForJobs? ==>
          forall i :: 0 <= i < |s.store| - 1 && s.store[i].GetJobs? ==> s.store[i].ask < s.asked)
    && (s.reply.Some? ==> s.store == [])
    && (forall i :: 0 <= i < |s.store| && s.store[i].ShutDownQueues? ==>
          s.wait.ForFlush? && i == |s.store| - 1 && !s.flushed)
    && (s.wait.ForFlush? && !s.flushed ==> s.store != [] && s.store[|s.store| - 1].ShutDownQueues?)
    && (s.flushed ==> s.store == [])
  }

  /** While a claim waits for its read, the rows it holds are claimable ones of this queue, few enough. */
  ghost predicate Claims(s: Sys)
  {
    s.claiming.Some? ==>
      var held := Holding(s.table, s.claiming.value);
      && |held| <= s.coord.workerCount
      && forall j :: j in held ==> Mine(s, j) && (s.table[j].status.New? || s.table[j].status.Retry?)
  }

  ghost predicate Replies(s: Sys)
  {
    s.reply.Some? ==>
      var fs := s.reply.value;
      && Distinct(fs)
      && |fs| <= s.coord.workerCount
      && AllReady(Plan(s), fs)
      && forall i :: 0 <= i < |fs| ==> JobData(s, fs[i].job)
  }

  /** The bound of the naive backpressure. */
  predicate Pressure(s: Sys)
  {
    && s.coord.pendingItems <= 3 * s.coord.workerCount
    && (s.coord.workerCount > 0 ==> s.coord.pendingItems <= 3 * s.coord.workerCount - 1)
    && (s.wait.ForJobs? || (s.effects != [] && s.effects[0].AskJobs?) ==>
          s.coord.pendingItems <= 2 * s.coord.workerCount - 1)
  }

  /** Nothing carried stands behind the last answer to the shutdown. */
  ghost predicate Covered(q: seq<Message>)
  {
    forall i :: 0 <= i < |q| && HasJob(q[i]) ==> exists k :: i < k < |q| && q[k].QueueShutDown?
  }

  predicate ShutDownLast(q: seq<Message>)
  {
    q != [] ==> q[|q| - 1].ShutDownQueues? && ShutDowns(q) == 1
  }

  /** Has the shutdown been broadcast? */
  predicate Broadcast(s: Sys)
  {
    s.coord.shuttingDown && s.effects != [BroadcastShutDown]
  }

  predicate Finishing(s: Sys)
  {
    s.effects == [AskFlush, TellRequester] || s.effects == [TellRequester] || s.flushed || s.notified
  }

  /** At most one request, in the mailbox or taken. */
  predicate Requests(s: Sys)
  {
    && ShutDowns(s.inbox) + One(s.coord.shuttingDown) <= One(s.requested)
    && (s.effects == [BroadcastShutDown] ==> s.coord.shuttingDown)
  }

  /** Before the broadcast no worker has been told, and none has answered. */
  ghost predicate BeforeBroadcast(s: Sys)
  {
    && s.coord.shutdownCount == 0 && Downs(s.inbox) == 0 && !Finishing(s)
    && forall w :: 0 <= w < |s.workers| ==> ShutDowns(s.workers[w]) == 0
  }

  /** After it every worker that is still active has the shutdown as its last message, and no job follows. */
  ghost predicate AfterBroadcast(s: Sys)
  {
    && (forall w :: 0 <= w < |s.workers| ==> ShutDownLast(s.workers[w]))
    && s.coord.shutdownCount + Downs(s.inbox) + Active(s.workers) == s.coord.workerCount
    && (Active(s.workers) == 0 ==> Covered(s.inbox))
    && !s.wait.ForJobs? && s.effects != [AskJobs(s.coord.workerCount)]
    && forall e :: e in s.effects ==> !e.ToWorker?
  }

  /** The final ask starts when all workers have answered; once it is answered no mark remains. */
  predicate Ending(s: Sys)
  {
    && (Finishing(s) ==> s.coord.shuttingDown && s.coord.shutdownCount == s.coord.workerCount > 0)
    && (s.notified ==> s.flushed)
    && (s.flushed ==> MarksOf(s.effects) == [])
  }

  ghost predicate Shutdown(s: Sys)
  {
    && Requests(s)
    && (if Broadcast(s) then AfterBroadcast(s) else BeforeBroadcast(s))
    && Ending(s)
  }

  ghost predicate Inv(s: Sys)
  {
    Shape(s) && Counts(s) && Data(s) && Rows(s) && Store(s) && Claims(s) && Replies(s) && Pressure(s) && Shutdown(s)
  }

  lemma InitInv(s: Sys)
    requires Init(s)
    ensures Inv(s)
  {
    assert Plan(s) == [];
    forall k {
      NothingActive(s.workers, k);
    }
    NothingActive(s.workers, None);
    NoDowns(s.inbox);
    assert forall w :: 0 <= w < |s.workers| ==> s.workers[w] == [];
  }
}
