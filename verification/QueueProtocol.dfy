/**
 One queue at work: its coordinator, its workers, its storage actor and the shared queue table, as steps
 over mailboxes and rows.

 Assumed of the surroundings: an UPDATE is atomic and does not fail; lock GUIDs are fresh; the clock is
 shared and never runs backwards; worker and storage mailboxes are first in, first out; the coordinator's
 mailbox hands out shutdown requests first and is otherwise first in, first out; this coordinator is the
 only one on its queue and is asked to shut down once.  Other processes may insert jobs at any time and do
 anything to the rows of other queues.
 */
module QueueProtocol {
  import opened Wrappers
  import opened JobTable
  import opened Messages
  import opened Coordinator

  /** Is the coordinator blocked on an ask? */
  datatype Wait = NotWaiting | ForJobs | ForFlush

  datatype Sys = Sys(
    queue: string,
    lockTimeout: int,
    coord: Coord,
    effects: seq<Effect>,          // what the current handler has still to perform
    wait: Wait,
    asked: nat,                    // number of the latest ask for jobs
    reply: Option<seq<Fetched>>,   // its answer, once there is one
    inbox: seq<Message>,
    workers: seq<seq<Message>>,    // a running request stays at the head of its worker's mailbox
    store: seq<Message>,
    claiming: Option<Guid>,        // between the claim and the read of the GetJobs at the head of `store`
    table: Table,
    clock: Time,
    dispatched: seq<JobId>,        // history: the jobs handed to workers, one entry each time
    sent: seq<Mark>,               // history: the marks sent to the storage actor
    applied: nat,                  // history: how many of them the store has applied
    requested: bool,
    flushed: bool,                 // the storage actor has answered the final ask
    notified: bool)                // the requester has received QueueShutDown

  datatype Step =
    | Pulse
    | RequestShutDown
    | Deliver
    | Perform(worker: nat)
    | ReplyArrives
    | AskTimesOut
    | FlushArrives
    | WorkerRuns(w: nat, succeeds: bool)
    | StoreMarks
    | StoreClaims(chosen: set<JobId>, guid: Guid, lockTime: Time, thresholdTime: Time)
    | StoreReads(fs: seq<Fetched>)
    | StoreFlushes
    | Tick(to: Time)
    | InsertRow(id: JobId, row: Row)
    | PublishRow(id: JobId)
    | OtherQueues(others: Table)

  predicate Idle(s: Sys)
  {
    s.wait.NotWaiting? && s.effects == []
  }

  function JobOf(id: JobId, r: Row): Job
  {
    Job(id, Some(RetryParameters(r.maxRetries, r.retryCount)))
  }

  /** `fs` is what the reading query returns for `guid`, in any order, whatever types resolve. */
  ghost predicate ReadsAs(t: Table, guid: Guid, fs: seq<Fetched>)
  {
    && (forall i :: 0 <= i < |fs| ==> fs[i].job.id in Holding(t, guid) && fs[i].job == JobOf(fs[i].job.id, t[fs[i].job.id]))
    && (forall i, k :: 0 <= i < k < |fs| ==> fs[i].job.id != fs[k].job.id)
    && (forall j :: j in Holding(t, guid) ==> exists i :: 0 <= i < |fs| && fs[i].job.id == j)
  }

  ghost predicate Enabled(s: Sys, step: Step)
  {
    match step
    case Pulse => true
    case RequestShutDown => !s.requested
    case Deliver => Idle(s) && s.inbox != []
    case Perform(w) =>
      s.wait.NotWaiting? && s.effects != [] && (s.effects[0].ToWorker? ==> w < |s.workers|)
    case ReplyArrives => s.wait.ForJobs? && s.reply.Some?
    case AskTimesOut => s.wait.ForJobs?
    case FlushArrives => s.wait.ForFlush? && s.flushed
    case WorkerRuns(w, succeeds) => w < |s.workers| && s.workers[w] != []
    case StoreMarks => s.claiming.None? && s.store != [] && s.store[0].MarkJob?
    case StoreClaims(chosen, guid, lockTime, thresholdTime) =>
      && s.claiming.None? && s.store != [] && s.store[0].GetJobs?
      && lockTime <= thresholdTime <= s.clock
      && Holding(s.table, guid) == {}
      && IsTake(s.table, Eligible(s.table, {s.queue}, lockTime, thresholdTime - s.lockTimeout),
                s.store[0].fetchSize, chosen)
    case StoreReads(fs) =>
      s.claiming.Some? && s.store != [] && s.store[0].GetJobs? && ReadsAs(s.table, s.claiming.value, fs)
    case StoreFlushes => s.claiming.None? && s.store != [] && s.store[0].ShutDownQueues?
    case Tick(to) => s.clock <= to
    case InsertRow(id, row) =>
      id !in s.table && row.status.Inserting? && row.retryCount == 0 && row.lockGuid.None?
    case PublishRow(id) => id in s.table && s.table[id].status.Inserting?
    case OtherQueues(others) =>
      && (forall j :: j in s.table && s.table[j].queue == s.queue ==> j in others && others[j] == s.table[j])
      && (forall j :: j in others && others[j].queue == s.queue ==> j in s.table && s.table[j].queue == s.queue)
      && (forall j :: j in others && others[j].queue != s.queue && s.claiming.Some? ==>
            others[j].lockGuid != s.claiming)
  }

  /** The storage actor, one message further. */
  function StoreRest(s: Sys): Sys
    requires s.store != []
  {
    s.(store := s.store[1..], claiming := None)
  }

  function DoPerform(s: Sys, w: nat): Sys
    requires s.effects != [] && (s.effects[0].ToWorker? ==> w < |s.workers|)
  {
    var s1 := s.(effects := s.effects[1..]);
    match s.effects[0]
    case ToWorker(job) => 
      s1.(workers := s.workers[w := s.workers[w] + [ExecuteJobRequest(job)]],
          dispatched := s.dispatched + [job.id])
    case ToStore(mark) => s1.(store := s.store + [MarkJob(mark)], sent := s.sent + [mark])
    case ToSelf => s1.(inbox := s.inbox + [SilentRetrySweep])
    case BroadcastShutDown =>
      s1.(workers := seq(|s.workers|, i requires 0 <= i < |s.workers| => s.workers[i] + [ShutDownQueues]))
    case AskJobs(n) =>
      s1.(store := s.store + [GetJobs(n, s.asked + 1)], asked := s.asked + 1, reply := None, wait := ForJobs)
    case AskFlush => s1.(store := s.store + [ShutDownQueues], wait := ForFlush)
    case TellConfigured => s1
    case TellRequester => s1.(notified := true)
  }

  function DoDeliver(s: Sys): Sys
    requires s.inbox != []
  {
    var i := NextIndex(s.inbox);
    var (c, es, _) := Handle(s.coord, s.inbox[i], s.clock);
    s.(inbox := s.inbox[..i] + s.inbox[i + 1..], coord := c, effects := es)
  }

  function DoWorkerRuns(s: Sys, w: nat, succeeds: bool): Sys
    requires w < |s.workers| && s.workers[w] != []
  {
    var r := WorkerReply(s.workers[w][0], succeeds);
    s.(workers := s.workers[w := s.workers[w][1..]],
       inbox := if r.Some? then s.inbox + [r.value] else s.inbox)
  }

  function DoReads(s: Sys, fs: seq<Fetched>): Sys
    requires s.store != [] && s.store[0].GetJobs?
  {
    // the answer to an ask that has timed out is lost
    if s.wait.ForJobs? && s.store[0].ask == s.asked then StoreRest(s).(reply := Some(fs)) else StoreRest(s)
  }

  function DoReply(s: Sys, reply: Option<seq<Fetched>>): Sys
  {
    var (c, es) := OnFetched(s.coord, reply);
    s.(coord := c, effects := es, wait := NotWaiting, reply := None)
  }

  function Do(s: Sys, step: Step): Sys
    requires Enabled(s, step)
  {
    match step
    case Pulse => s.(inbox := s.inbox + [JobSweep])
    case RequestShutDown => s.(inbox := s.inbox + [ShutDownQueues], requested := true)
    case Deliver => DoDeliver(s)
    case Perform(w) => DoPerform(s, w)
    case ReplyArrives => DoReply(s, s.reply)
    case AskTimesOut => DoReply(s, None)
    case FlushArrives => s.(wait := NotWaiting)
    case WorkerRuns(w, succeeds) => DoWorkerRuns(s, w, succeeds)
    case StoreMarks =>
      StoreRest(s).(table := ApplyMark(s.table, s.store[0].mark, s.clock), applied := s.applied + 1)
    case StoreClaims(chosen, guid, lockTime, _) =>
      s.(table := Claim(s.table, chosen, guid, lockTime), claiming := Some(guid))
    case StoreReads(fs) => DoReads(s, fs)
    case StoreFlushes => StoreRest(s).(flushed := true)
    case Tick(to) => s.(clock := to)
    case InsertRow(id, row) => s.(table := s.table[id := row])
    case PublishRow(id) => s.(table := s.table[id := s.table[id].(status := New)])
    case OtherQueues(others) => s.(table := others)
  }

  /**
   A configured queue that has not started: no messages anywhere.  The table may hold anything an earlier
   run can have left: retry counts within budget, and retry rows that still have a retry to go.
   */
  ghost predicate Init(s: Sys)
  {
    && !s.coord.shuttingDown && s.coord.shutdownCount == 0 && s.coord.pendingItems == 0
    && s.effects == [] && s.wait.NotWaiting? && s.reply.None?
    && s.inbox == [] && s.store == [] && s.claiming.None?
    && |s.workers| == s.coord.workerCount && (forall w :: 0 <= w < |s.workers| ==> s.workers[w] == [])
    && s.dispatched == [] && s.sent == [] && s.applied == 0
    && !s.requested && !s.flushed && !s.notified
    && (forall j :: j in s.table && s.table[j].queue == s.queue ==> RowInBudget(s.table[j]))
  }

  function Budget(maxRetries: int): nat
  {
    if maxRetries < 0 then 0 else maxRetries
  }

  predicate RowInBudget(r: Row)
  {
    && 0 <= r.retryCount <= Budget(r.maxRetries)
    && (r.status.Retry? ==> r.retryCount <= r.maxRetries && r.lastAttempt.Some?)
  }

  ghost predicate Next(s: Sys, s': Sys)
  {
    exists step :: Enabled(s, step) && s' == Do(s, step)
  }

  ghost predicate StepAt(run: seq<Sys>, i: nat)
    requires i < |run| - 1
  {
    Next(run[i], run[i + 1])
  }

  ghost predicate IsRun(run: seq<Sys>)
  {
    && run != []
    && Init(run[0])
    && forall i :: 0 <= i < |run| - 1 ==> StepAt(run, i)
  }
}
