/** The messages that the queue's actors exchange, and the coordinator's mailbox order. */
module Messages {
  import opened Wrappers
  import opened JobTable

  datatype RetryParameters = RetryParameters(maxRetries: int, retryCount: int)

  /** The part of a fetched job that the protocol looks at. */
  datatype Job = Job(id: JobId, retry: Option<RetryParameters>)

  /** A job as the store returns it; its type may fail to resolve. */
  datatype Fetched = Fetched(job: Job, typeMissing: bool)

  datatype Message =
    | SetJobQueueConfiguration(numWorkers: nat, aggressiveSweep: bool)
    | ShutDownQueues
    | QueueShutDown
    | JobSweep
    | SilentRetrySweep
    | ExecuteJobRequest(job: Job)
    | JobSucceeded(job: Job)
    | JobFailed(job: Job)
    | GetJobs(fetchSize: nat, ask: nat)  // `ask` identifies the promise that the reply goes to
    | MarkJob(mark: Mark)
    | Custom

  function Priority(m: Message): int
  {
    if m.ShutDownQueues? then 0 else 1
  }

  /** The message that the coordinator's mailbox hands out: the first of those with the least priority. */
  function NextIndex(q: seq<Message>): (i: nat)
    requires q != []
    ensures i < |q|
    ensures forall k :: 0 <= k < |q| ==> Priority(q[i]) <= Priority(q[k])
    ensures forall k :: 0 <= k < i ==> Priority(q[i]) < Priority(q[k])
    ensures if exists k :: 0 <= k < |q| && q[k] == ShutDownQueues
            then q[i] == ShutDownQueues && forall k :: 0 <= k < i ==> q[k] != ShutDownQueues
            else i == 0
  {
    if |q| == 1 then 0 else
    var i := NextIndex(q[..|q| - 1]);
    assert forall k :: 0 <= k < |q| - 1 ==> q[k] == q[..|q| - 1][k];
    if Priority(q[|q| - 1]) < Priority(q[i]) then |q| - 1 else i
  }

  /** What a worker answers: exactly one reply to each request, and to each shutdown. */
  function WorkerReply(m: Message, succeeds: bool): Option<Message>
  {
    match m
    case ShutDownQueues => Some(QueueShutDown)
    case ExecuteJobRequest(job) => Some(if succeeds then JobSucceeded(job) else JobFailed(job))
    case _ => None
  }

  class JobWorkerActor {
    /** The replies sent so far, to whoever asked. */
    var replies: seq<Message>

    constructor ()
      ensures replies == []
    {
      replies := [];
    }

    method Receive(message: Message, succeeds: bool) returns (handled: bool)
      modifies this
      ensures handled == (message.ShutDownQueues? || message.ExecuteJobRequest?)
      ensures handled == WorkerReply(message, succeeds).Some?
      ensures replies == if handled then old(replies) + [WorkerReply(message, succeeds).value] else old(replies)
    {
      if message.ShutDownQueues? {
        replies := replies + [QueueShutDown];
      } else if message.ExecuteJobRequest? {
        RunJob(message, succeeds);
      } else {
        return false;
      }
      return true;
    }

    /** `succeeds` says whether the job returns or throws; the handler of the throw replies instead. */
    method RunJob(request: Message, succeeds: bool)
      requires request.ExecuteJobRequest?
      modifies this
      ensures |replies| == |old(replies)| + 1 && old(replies) <= replies
      ensures replies[|old(replies)|] == if succeeds then JobSucceeded(request.job) else JobFailed(request.job)
    {
      if succeeds {
        replies := replies + [JobSucceeded(request.job)];
      } else {
        replies := replies + [JobFailed(request.job)];
      }
    }
  }
}
