/**
 Every step of the queue keeps the invariant.

 The invariant has nine parts (`QueueInvariant.Inv`), and most steps leave most parts alone.  First come
 lemmas for what a step does not touch; then, step by step, one lemma for each part that the step does touch,
 and one that puts the parts of the step together:

 - pulses and requests, which put a message into the coordinator's mailbox,
 - the surroundings: time, insertions, other queues,
 - the coordinator taking a message: results, sweeps, shutdown requests, workers that are done,
 - the coordinator performing an effect: tells to workers and store, broadcasts, asks,
 - the end of an ask: a reply, a timeout, the final flush,
 - a worker running the request at the head of its mailbox,
 - the storage actor: marks, claims, reads, the final flush.

 `StepInv` and `RunInv` conclude.
 */
module QueueSteps {
  import opened Wrappers
  import opened JobTable
  import opened Messages
  import opened Coordinator
  import opened MarkHistory
  import opened Mailboxes
  import opened QueueProtocol
  import opened QueueInvariant

  // ----- parts of the invariant that a step does not touch -----

  ghost predicate SamePlan(s: Sys, s': Sys)
  {
    Plan(s') == Plan(s) && AppliedMarks(s') == AppliedMarks(s)
  }

  lemma KeepsCounts(s: Sys, s': Sys)
    requires Counts(s) && Plan(s') == Plan(s) && s'.coord.pendingItems == s.coord.pendingItems
    requires forall k :: Flight(s', k) == Flight(s, k)
    requires forall j :: Attempts(s', j) == Attempts(s, j)
    ensures Counts(s')
  {
  }

  lemma KeepsData(s: Sys, s': Sys)
    requires Data(s) && SamePlan(s, s') && s'.table == s.table && s'.queue == s.queue
    requires forall job :: UnderWay(s', job) ==> UnderWay(s, job)
    ensures Data(s')
  {
  }

  lemma KeepsRows(s: Sys, s': Sys)
    requires Rows(s) && SamePlan(s, s') && s'.table == s.table && s'.queue == s.queue
    ensures Rows(s')
  {
    assert forall j :: Mine(s', j) ==> Mine(s, j) && (RowBudget(s, j) ==> RowBudget(s', j));
  }

  lemma KeepsReplies(s: Sys, s': Sys)
    requires Replies(s) && SamePlan(s, s') && s'.table == s.table && s'.queue == s.queue
    requires s'.reply == s.reply && s'.coord.workerCount == s.coord.workerCount
    ensures Replies(s')
  {
  }

  lemma KeepsClaims(s: Sys, s': Sys)
    requires Claims(s) && s'.table == s.table && s'.queue == s.queue
    requires s'.claiming == s.claiming && s'.coord.workerCount == s.coord.workerCount
    ensures Claims(s')
  {
  }

  lemma KeepsStore(s: Sys, s': Sys)
    requires Store(s) && s'.store == s.store && s'.sent == s.sent && s'.applied == s.applied
    requires s'.claiming == s.claiming && s'.wait == s.wait && s'.asked == s.asked && s'.reply == s.reply
    requires s'.flushed == s.flushed && s'.coord.workerCount == s.coord.workerCount
    ensures Store(s')
  {
  }

  lemma KeepsShutdown(s: Sys, s': Sys)
    requires Shutdown(s) && s'.inbox == s.inbox && s'.workers == s.workers && s'.effects == s.effects
    requires s'.wait == s.wait && s'.requested == s.requested && s'.flushed == s.flushed && s'.notified == s.notified
    requires s'.coord == s.coord
    ensures Shutdown(s')
  {
  }

  lemma KeepsShape(s: Sys, s': Sys)
    requires Shape(s) && Pressure(s) && s'.inbox == s.inbox && s'.workers == s.workers && s'.effects == s.effects
    requires s'.store == s.store && s'.wait == s.wait && s'.reply == s.reply && s'.flushed == s.flushed
    requires s'.coord == s.coord
    ensures Shape(s') && Pressure(s')
  {
  }

  // ----- the coordinator's mailbox grows -----

  /** A new message without a job, at the end of the coordinator's mailbox. */
  lemma InboxGrows(q: seq<Message>, m: Message)
    requires !HasJob(m)
    ensures forall k :: CarriedIn(q + [m], k) == CarriedIn(q, k)
    ensures Covered(q) ==> Covered(q + [m])
    ensures Downs(q + [m]) == Downs(q) + One(m.QueueShutDown?)
    ensures ShutDowns(q + [m]) == ShutDowns(q) + One(m.ShutDownQueues?)
  {
    InboxSnoc(q, m, None);
    forall k
      ensures CarriedIn(q + [m], k) == CarriedIn(q, k)
    {
      InboxSnoc(q, m, k);
    }
    if Covered(q) {
      forall i | 0 <= i < |q + [m]| && HasJob((q + [m])[i])
        ensures exists k :: i < k < |q + [m]| && (q + [m])[k].QueueShutDown?
      {
        assert HasJob(q[i]);
        var k :| i < k < |q| && q[k].QueueShutDown?;
        assert (q + [m])[k].QueueShutDown?;
      }
    }
  }

  ghost predicate Grows(s: Sys, s': Sys, m: Message)
  {
    && !HasJob(m) && InboxMessage(m)
    && s' == s.(inbox := s.inbox + [m], effects := s'.effects, requested := s'.requested)
    && (s'.effects == s.effects || (s.effects == [ToSelf] && s'.effects == []))
  }

  lemma GrowsShape(s: Sys, s': Sys, m: Message)
    requires Shape(s) && Pressure(s) && Grows(s, s', m)
    ensures Shape(s') && Pressure(s')
  {
  }

  lemma GrowsCounts(s: Sys, s': Sys, m: Message)
    requires Counts(s) && Data(s) && Grows(s, s', m)
    ensures Counts(s') && Data(s') && SamePlan(s, s')
  {
    hide Counts, Data;
    InboxGrows(s.inbox, m);
    assert [ToSelf][1..] == [];
    assert SamePlan(s, s');
    assert forall k :: Flight(s', k) == Flight(s, k);
    KeepsCounts(s, s');
    KeepsData(s, s');
  }

  /** All but the shutdown part, for a step that appends `m` to the inbox and may drop a `ToSelf` effect. */
  lemma InboxGrowsInv(s: Sys, s': Sys, m: Message)
    requires Inv(s) && Grows(s, s', m) && Shutdown(s')
    ensures Inv(s')
  {
    hide Shape, Counts, Data, Rows, Store, Claims, Replies, Pressure, Shutdown;
    GrowsShape(s, s', m);
    GrowsCounts(s, s', m);
    hide SamePlan;
    KeepsRows(s, s');
    KeepsReplies(s, s');
    KeepsClaims(s, s');
    KeepsStore(s, s');
  }

  /** A pulse, or the first request to shut down. */
  ghost predicate GrowsQuietly(s: Sys, s': Sys, m: Message)
  {
    && Grows(s, s', m) && !m.QueueShutDown? && (m.ShutDownQueues? ==> !s.requested)
    && s'.requested == (s.requested || m.ShutDownQueues?)
  }

  lemma GrowsRequests(s: Sys, s': Sys, m: Message)
    requires Requests(s) && GrowsQuietly(s, s', m)
    ensures Requests(s')
  {
    InboxGrows(s.inbox, m);
  }

  lemma GrowsBefore(s: Sys, s': Sys, m: Message)
    requires BeforeBroadcast(s) && GrowsQuietly(s, s', m) && Finishing(s') == Finishing(s)
    ensures BeforeBroadcast(s')
  {
    hide Finishing;
    InboxGrows(s.inbox, m);
  }

  lemma GrowsAfter(s: Sys, s': Sys, m: Message)
    requires AfterBroadcast(s) && GrowsQuietly(s, s', m)
    ensures AfterBroadcast(s')
  {
    hide Covered, ShutDownLast;
    InboxGrows(s.inbox, m);
  }

  lemma GrowsStage(s: Sys, s': Sys, m: Message)
    requires GrowsQuietly(s, s', m)
    ensures Broadcast(s') == Broadcast(s) && Finishing(s') == Finishing(s)
    ensures Ending(s) ==> Ending(s')
  {
  }

  lemma GrowsShutdown(s: Sys, s': Sys, m: Message)
    requires Shutdown(s) && GrowsQuietly(s, s', m)
    ensures Shutdown(s')
  {
    hide Requests, BeforeBroadcast, AfterBroadcast, Broadcast, Ending, Finishing, GrowsQuietly;
    GrowsRequests(s, s', m);
    GrowsStage(s, s', m);
    if Broadcast(s) {
      GrowsAfter(s, s', m);
    } else {
      GrowsBefore(s, s', m);
    }
  }

  lemma PulseInv(s: Sys)
    requires Inv(s)
    ensures Inv(Do(s, Pulse))
  {
    hide Shape, Counts, Data, Rows, Store, Claims, Replies, Pressure, Shutdown;
    GrowsShutdown(s, Do(s, Pulse), JobSweep);
    InboxGrowsInv(s, Do(s, Pulse), JobSweep);
  }

  lemma RequestInv(s: Sys)
    requires Inv(s) && Enabled(s, RequestShutDown)
    ensures Inv(Do(s, RequestShutDown))
  {
    hide Shape, Counts, Data, Rows, Store, Claims, Replies, Pressure, Shutdown;
    GrowsShutdown(s, Do(s, RequestShutDown), ShutDownQueues);
    InboxGrowsInv(s, Do(s, RequestShutDown), ShutDownQueues);
  }

  // ----- the surroundings -----

  lemma {:induction false} NoMarks(ms: seq<Mark>, j: JobId)
    requires forall m :: m in ms ==> m.id != j
    ensures Last(ms, j).None? && Retries(ms, j) == 0
  {
    if ms != [] {
      assert ms[|ms| - 1] in ms;
      NoMarks(ms[..|ms| - 1], j);
    }
  }

  /** A row as the surroundings may leave it: retry data untouched, or a job just inserted. */
  ghost predicate Untouched(s: Sys, t: Table, j: JobId)
    requires j in t
  {
    if Mine(s, j) then
      && t[j].queue == s.queue && t[j].retryCount == s.table[j].retryCount
      && t[j].maxRetries == s.table[j].maxRetries && t[j].lastAttempt == s.table[j].lastAttempt
      && (t[j].status == s.table[j].status || (s.table[j].status.Inserting? && t[j].status.New?))
    else t[j].queue == s.queue ==> 0 == t[j].retryCount && !t[j].status.Retry?
  }

  lemma TableRows(s: Sys, s': Sys)
    requires Rows(s) && s' == s.(table := s'.table)
    requires forall j :: Mine(s, j) ==> j in s'.table
    requires forall j :: j in s'.table ==> Untouched(s, s'.table, j)
    ensures Rows(s')
  {
    assert SamePlan(s, s');
    forall j | Mine(s', j)
      ensures RowBudget(s', j)
    {
      assert Untouched(s, s'.table, j);
      if Mine(s, j) {
        assert RowBudget(s, j);
      } else {
        NoMarks(Plan(s), j);
        assert forall m :: m in AppliedMarks(s) ==> m in Plan(s);
        NoMarks(AppliedMarks(s), j);
      }
    }
    forall m | m in Plan(s')
      ensures Mine(s', m.id)
    {
      assert Mine(s, m.id);
      assert Untouched(s, s'.table, m.id);
    }
  }

  lemma TableInv(s: Sys, s': Sys)
    requires Inv(s) && s' == s.(table := s'.table)
    requires forall j :: Mine(s, j) ==> j in s'.table
    requires forall j :: j in s'.table ==> Untouched(s, s'.table, j)
    requires s.claiming.Some? ==> Holding(s'.table, s.claiming.value) == Holding(s.table, s.claiming.value)
    ensures Inv(s')
  {
    hide Shape, Counts, Data, Rows, Store, Claims, Replies, Pressure, Shutdown;
    KeepsShape(s, s');
    assert SamePlan(s, s');
    KeepsCounts(s, s');
    TableRows(s, s');
    forall job | JobData(s, job)
      ensures JobData(s', job)
    {
      assert Untouched(s, s'.table, job.id);
    }
    TableData(s, s');
    TableClaims(s, s');
    KeepsStore(s, s');
    KeepsShutdown(s, s');
  }

  lemma TableData(s: Sys, s': Sys)
    requires Data(s) && Replies(s) && s' == s.(table := s'.table)
    requires forall job :: JobData(s, job) ==> JobData(s', job)
    ensures Data(s') && Replies(s')
  {
    assert SamePlan(s, s');
    assert forall job :: UnderWay(s', job) ==> UnderWay(s, job);
  }

  lemma TableClaims(s: Sys, s': Sys)
    requires Claims(s) && s' == s.(table := s'.table)
    requires forall j :: Mine(s, j) ==> j in s'.table
    requires forall j :: j in s'.table ==> Untouched(s, s'.table, j)
    requires s.claiming.Some? ==> Holding(s'.table, s.claiming.value) == Holding(s.table, s.claiming.value)
    ensures Claims(s')
  {
    if s.claiming.Some? {
      forall j | j in Holding(s'.table, s.claiming.value)
        ensures Mine(s', j) && (s'.table[j].status.New? || s'.table[j].status.Retry?)
      {
        assert Untouched(s, s'.table, j);
      }
    }
  }

  lemma TickInv(s: Sys, to: Time)
    requires Inv(s)
    ensures Inv(s.(clock := to))
  {
    hide Shape, Counts, Data, Rows, Store, Claims, Replies, Pressure, Shutdown;
    var s' := s.(clock := to);
    assert SamePlan(s, s');
    KeepsShape(s, s');
    KeepsCounts(s, s');
    KeepsData(s, s');
    KeepsRows(s, s');
    KeepsReplies(s, s');
    KeepsClaims(s, s');
    KeepsStore(s, s');
    KeepsShutdown(s, s');
  }

  lemma InsertInv(s: Sys, id: JobId, row: Row)
    requires Inv(s) && Enabled(s, InsertRow(id, row))
    ensures Inv(Do(s, InsertRow(id, row)))
  {
    hide Shape, Counts, Data, Rows, Store, Claims, Replies, Pressure, Shutdown;
    if s.claiming.Some? {
      assert Holding(s.table[id := row], s.claiming.value) == Holding(s.table, s.claiming.value);
    }
    TableInv(s, Do(s, InsertRow(id, row)));
  }

  lemma PublishInv(s: Sys, id: JobId)
    requires Inv(s) && Enabled(s, PublishRow(id))
    ensures Inv(Do(s, PublishRow(id)))
  {
    hide Shape, Counts, Data, Rows, Store, Claims, Replies, Pressure, Shutdown;
    var s' := Do(s, PublishRow(id));
    if s.claiming.Some? {
      assert Holding(s'.table, s.claiming.value) == Holding(s.table, s.claiming.value);
    }
    TableInv(s, s');
  }

  lemma OthersInv(s: Sys, others: Table)
    requires Inv(s) && Enabled(s, OtherQueues(others))
    ensures Inv(Do(s, OtherQueues(others)))
  {
    hide Shape, Counts, Data, Rows, Store, Replies, Pressure, Shutdown;
    if s.claiming.Some? {
      var g := s.claiming.value;
      forall j
        ensures j in Holding(others, g) <==> j in Holding(s.table, g)
      {
        if j in Holding(s.table, g) {
          assert Mine(s, j);
        }
      }
    }
    TableInv(s, Do(s, OtherQueues(others)));
  }

  // ----- the coordinator takes a message -----

  /** Shutdown requests aside, the mailbox is first in, first out. */
  lemma NextIsFirst(q: seq<Message>)
    requires q != [] && ShutDowns(q) == 0
    ensures NextIndex(q) == 0
  {
    NoDowns(q);
    assert Priority(q[NextIndex(q)]) == Priority(q[0]);
  }

  lemma CoveredTail(q: seq<Message>)
    requires q != [] && Covered(q)
    ensures Covered(q[1..])
  {
    forall i | 0 <= i < |q[1..]| && HasJob(q[1..][i])
      ensures exists k :: i < k < |q[1..]| && q[1..][k].QueueShutDown?
    {
      assert HasJob(q[i + 1]);
      var k :| i + 1 < k < |q| && q[k].QueueShutDown?;
      assert q[1..][k - 1].QueueShutDown?;
    }
  }

  function Taken(s: Sys): seq<Message>
    requires s.inbox != []
  {
    s.inbox[..NextIndex(s.inbox)] + s.inbox[NextIndex(s.inbox) + 1..]
  }

  function Next(s: Sys): Message
    requires s.inbox != []
  {
    s.inbox[NextIndex(s.inbox)]
  }

  lemma TakenCounts(s: Sys, k: Option<JobId>)
    requires s.inbox != []
    ensures CarriedIn(s.inbox, k) == CarriedIn(Taken(s), k) + One(Carries(Next(s), k))
    ensures Downs(s.inbox) == Downs(Taken(s)) + One(Next(s).QueueShutDown?)
    ensures ShutDowns(s.inbox) == ShutDowns(Taken(s)) + One(Next(s).ShutDownQueues?)
  {
    InboxWithout(s.inbox, NextIndex(s.inbox), k);
  }

  lemma UnderWayCounts(s: Sys, job: Job)
    requires UnderWay(s, job)
    ensures Flight(s, Some(job.id)) >= 1
  {
    if JobSucceeded(job) in s.inbox {
      var i :| 0 <= i < |s.inbox| && s.inbox[i] == JobSucceeded(job);
      CarriedMember(s.inbox, i);
    } else if JobFailed(job) in s.inbox {
      var i :| 0 <= i < |s.inbox| && s.inbox[i] == JobFailed(job);
      CarriedMember(s.inbox, i);
    } else if ToWorker(job) in s.effects {
      var i :| 0 <= i < |s.effects| && s.effects[i] == ToWorker(job);
      ToldMember(s.effects, i);
    } else {
      var w :| 0 <= w < |s.workers| && ExecuteJobRequest(job) in s.workers[w];
      var i :| 0 <= i < |s.workers[w]| && s.workers[w][i] == ExecuteJobRequest(job);
      WorkerCarries(s.workers, w, i);
    }
  }

  /** After the broadcast, taking a message from the mailbox keeps its results covered. */
  lemma TakenCovered(s: Sys)
    requires Shutdown(s) && Broadcast(s) && s.inbox != []
    ensures Covered(s.inbox) ==> Covered(Taken(s))
    ensures !Next(s).ShutDownQueues?
  {
    NoDowns(s.inbox);
    NextIsFirst(s.inbox);
    assert Taken(s) == s.inbox[1..];
    if Covered(s.inbox) {
      CoveredTail(s.inbox);
    }
  }

  /** What remains of the shutdown part when the coordinator takes a message and sends nothing about it. */
  ghost predicate TakesQuietly(s: Sys, s': Sys)
  {
    && Idle(s) && s.inbox != [] && !Next(s).ShutDownQueues? && !Next(s).QueueShutDown?
    && s' == s.(inbox := Taken(s), coord := s'.coord, effects := s'.effects)
    && s'.coord.shuttingDown == s.coord.shuttingDown && s'.coord.shutdownCount == s.coord.shutdownCount
    && s'.coord.workerCount == s.coord.workerCount
    && s'.effects != [BroadcastShutDown] && (forall e :: e in s'.effects ==> !e.ToWorker?)
    && s'.effects != [AskFlush, TellRequester] && s'.effects != [TellRequester]
    && (s.coord.shuttingDown ==> s'.effects != [AskJobs(s.coord.workerCount)])
    && (s.flushed ==> MarksOf(s'.effects) == [])
  }

  lemma TakenShutdown(s: Sys, s': Sys)
    requires Shutdown(s) && TakesQuietly(s, s')
    ensures Shutdown(s')
  {
    TakenCounts(s, None);
    if Broadcast(s) {
      TakenCovered(s);
    }
    hide Covered, ShutDownLast, MarksOf, Told;
    assert Broadcast(s') == Broadcast(s);
    assert Finishing(s') == Finishing(s);
  }

  /** Once the final ask is under way, no results are left to read. */
  lemma FinishingMeansEmpty(s: Sys)
    requires Shutdown(s) && Finishing(s)
    ensures Active(s.workers) == 0 && Downs(s.inbox) == 0
    ensures forall i :: 0 <= i < |s.inbox| ==> !HasJob(s.inbox[i]) && !s.inbox[i].QueueShutDown?
  {
    NoDowns(s.inbox);
  }

  function MarkOfResult(m: Message): Mark
    requires m.JobSucceeded? || m.JobFailed?
  {
    if m.JobSucceeded? then MarkSuccess(m.job.id)
    else if OutOfRetries(m.job) then MarkFailed(m.job.id) else MarkRetry(m.job.id)
  }

  ghost predicate TakesResult(s: Sys, s': Sys)
  {
    && Idle(s) && s.inbox != [] && (Next(s).JobSucceeded? || Next(s).JobFailed?)
    && s' == s.(inbox := Taken(s), coord := s.coord.(pendingItems := s.coord.pendingItems - 1),
                effects := [ToStore(MarkOfResult(Next(s)))])
  }

  lemma ResultPlan(s: Sys, s': Sys, k: JobId)
    requires TakesResult(s, s')
    ensures Plan(s') == Plan(s) + [MarkOfResult(Next(s))] && Plan(s) == s.sent
    ensures AppliedMarks(s') == AppliedMarks(s)
    ensures Last(Plan(s'), k) == if k == Next(s).job.id then Some(MarkOfResult(Next(s))) else Last(Plan(s), k)
    ensures Retries(Plan(s'), k) == Retries(Plan(s), k) + One(MarkOfResult(Next(s)) == MarkRetry(k))
    ensures Runs(Plan(s'), k) == Runs(Plan(s), k) && Attempts(s', k) == Attempts(s, k)
  {
    assert [ToStore(MarkOfResult(Next(s)))][1..] == [];
    assert MarksOf([ToStore(MarkOfResult(Next(s)))]) == [MarkOfResult(Next(s))];
    assert Plan(s) == s.sent;
    Snoc(Plan(s), MarkOfResult(Next(s)), k);
  }

  lemma ResultFlight(s: Sys, s': Sys, k: Option<JobId>)
    requires TakesResult(s, s')
    ensures Flight(s, k) == Flight(s', k) + One(About(Next(s).job, k))
  {
    TakenCounts(s, k);
    assert [ToStore(MarkOfResult(Next(s)))][1..] == [];
  }

  lemma ResultRuns(s: Sys, s': Sys)
    requires Counts(s) && TakesResult(s, s')
    ensures Running(Plan(s), Next(s).job.id)
    ensures Counts(s')
  {
    var m := Next(s);
    ResultFlight(s, s', Some(m.job.id));
    ResultFlight(s, s', None);
    assert Running(Plan(s), m.job.id);
    ResultPlan(s, s', 0);
    OrderedSnoc(Plan(s), MarkOfResult(m));
    forall j
      ensures Flight(s', Some(j)) == One(Running(Plan(s'), j))
      ensures Attempts(s', j) == Runs(Plan(s'), j)
    {
      ResultFlight(s, s', Some(j));
      ResultPlan(s, s', j);
    }
  }

  lemma ResultRows(s: Sys, s': Sys)
    requires Counts(s) && Data(s) && Rows(s) && TakesResult(s, s')
    ensures Rows(s')
  {
    var m := Next(s);
    assert m in s.inbox;
    assert UnderWay(s, m.job);
    ResultPlan(s, s', 0);
    forall j | Mine(s', j)
      ensures RowBudget(s', j)
    {
      assert RowBudget(s, j);
      ResultPlan(s, s', j);
    }
  }

  lemma ResultJob(s: Sys, s': Sys, job: Job)
    requires Counts(s) && Data(s) && TakesResult(s, s') && UnderWay(s', job)
    ensures UnderWay(s, job) && job.id != Next(s).job.id
  {
    UnderWayCounts(s', job);
    ResultFlight(s, s', Some(job.id));
    assert forall m :: m in s'.inbox ==> m in s.inbox;
    assert ToWorker(job) !in s'.effects;
  }

  lemma ResultJobData(s: Sys, s': Sys, job: Job)
    requires TakesResult(s, s') && JobData(s, job) && job.id != Next(s).job.id
    ensures JobData(s', job)
  {
    ResultPlan(s, s', job.id);
  }

  lemma ResultData(s: Sys, s': Sys)
    requires Counts(s) && Data(s) && TakesResult(s, s')
    ensures Data(s')
  {
    hide Counts, TakesResult, JobData, UnderWay, Next;
    forall job | UnderWay(s', job)
      ensures JobData(s', job)
    {
      ResultJob(s, s', job);
      ResultJobData(s, s', job);
    }
  }

  lemma ResultRest(s: Sys, s': Sys)
    requires Shape(s) && Replies(s) && Pressure(s) && Shutdown(s) && TakesResult(s, s')
    ensures Shape(s') && Replies(s') && Pressure(s') && Shutdown(s')
  {
    assert [ToStore(MarkOfResult(Next(s)))][1..] == [];
    if s.flushed {
      FinishingMeansEmpty(s);
    }
    assert TakesQuietly(s, s');
    TakenShutdown(s, s');
  }

  lemma ResultInv(s: Sys, s': Sys)
    requires Inv(s) && TakesResult(s, s')
    ensures Inv(s')
  {
    hide Shape, Counts, Data, Rows, Store, Claims, Replies, Pressure, Shutdown;
    ResultRuns(s, s');
    ResultRows(s, s');
    ResultData(s, s');
    KeepsStore(s, s');
    KeepsClaims(s, s');
    ResultRest(s, s');
  }

  // ----- the coordinator takes a sweep, a shutdown request or a worker's answer to it -----

  /** A message that is not a result leaves the counts and the data alone. */
  ghost predicate TakesOther(s: Sys, s': Sys)
  {
    && Idle(s) && s.inbox != [] && !HasJob(Next(s))
    && s' == s.(inbox := Taken(s), coord := s'.coord, effects := s'.effects)
    && s'.coord.pendingItems == s.coord.pendingItems && s'.coord.workerCount == s.coord.workerCount
    && MarksOf(s'.effects) == []
    && (forall k :: Told(s'.effects, k) == 0)
    && (forall e :: e in s'.effects ==> !e.ToWorker?)
  }

  lemma OtherCounts(s: Sys, s': Sys)
    requires Counts(s) && TakesOther(s, s')
    ensures Counts(s') && SamePlan(s, s')
  {
    assert Plan(s') == Plan(s);
    forall k
      ensures Flight(s', k) == Flight(s, k)
    {
      TakenCounts(s, k);
    }
    KeepsCounts(s, s');
  }

  lemma OtherData(s: Sys, s': Sys)
    requires Data(s) && TakesOther(s, s') && SamePlan(s, s')
    ensures Data(s')
  {
    assert forall m :: m in Taken(s) ==> m in s.inbox;
    KeepsData(s, s');
  }

  lemma OtherInv(s: Sys, s': Sys)
    requires Inv(s) && TakesOther(s, s')
    requires Shape(s') && Pressure(s') && Shutdown(s')
    ensures Inv(s')
  {
    hide Shape, Counts, Data, Rows, Store, Claims, Replies, Pressure, Shutdown;
    OtherCounts(s, s');
    OtherData(s, s');
    KeepsRows(s, s');
    KeepsReplies(s, s');
    KeepsClaims(s, s');
    KeepsStore(s, s');
  }

  lemma OneEffect(e: Effect)
    requires !e.ToWorker? && !e.ToStore?
    ensures MarksOf([e]) == [] && forall k :: Told([e], k) == 0
  {
    assert [e][1..] == [];
  }

  lemma SweepTaken(s: Sys)
    requires Enabled(s, Deliver) && IsSweep(Next(s))
    ensures TakesOther(s, DoDeliver(s))
  {
    OneEffect(ToSelf);
    OneEffect(AskJobs(s.coord.workerCount));
  }

  lemma SweepInv(s: Sys)
    requires Inv(s) && Enabled(s, Deliver) && IsSweep(Next(s))
    ensures Inv(DoDeliver(s))
  {
    hide Shape, Counts, Data, Rows, Store, Claims, Replies, Pressure, Shutdown, DoDeliver, TakesOther;
    SweepTaken(s);
    SweepShutdown(s, DoDeliver(s));
    SweepShape(s, DoDeliver(s));
    OtherInv(s, DoDeliver(s));
  }

  lemma SweepShape(s: Sys, s': Sys)
    requires Shape(s) && Pressure(s) && Enabled(s, Deliver) && IsSweep(Next(s)) && s' == DoDeliver(s)
    ensures Shape(s') && Pressure(s')
  {
  }

  lemma SweepShutdown(s: Sys, s': Sys)
    requires Shutdown(s) && Idle(s) && s.inbox != [] && IsSweep(Next(s)) && s' == DoDeliver(s)
    ensures Shutdown(s')
  {
    OneEffect(ToSelf);
    OneEffect(AskJobs(s.coord.workerCount));
    assert TakesQuietly(s, s');
    TakenShutdown(s, s');
  }

  lemma ShutDownShutdown(s: Sys, s': Sys)
    requires Shape(s) && Shutdown(s) && Idle(s) && s.inbox != [] && Next(s).ShutDownQueues? && s' == DoDeliver(s)
    ensures Shutdown(s')
  {
    TakenCounts(s, None);
    OneEffect(BroadcastShutDown);
  }

  lemma ShutDownInv(s: Sys)
    requires Inv(s) && Enabled(s, Deliver) && Next(s).ShutDownQueues?
    ensures Inv(DoDeliver(s))
  {
    OneEffect(BroadcastShutDown);
    ShutDownShutdown(s, DoDeliver(s));
    OtherInv(s, DoDeliver(s));
  }

  lemma FinalEffects()
    ensures MarksOf([AskFlush, TellRequester]) == [] && forall k :: Told([AskFlush, TellRequester], k) == 0
  {
    assert [AskFlush, TellRequester][1..] == [TellRequester];
    OneEffect(TellRequester);
  }

  ghost predicate TakesDown(s: Sys, s': Sys)
  {
    && Idle(s) && s.inbox != [] && Next(s).QueueShutDown?
    && s' == s.(inbox := Taken(s), coord := s'.coord, effects := s'.effects)
    && s'.coord.shuttingDown == s.coord.shuttingDown && s'.coord.workerCount == s.coord.workerCount
    && s'.coord.shutdownCount == s.coord.shutdownCount + 1
    && s'.effects == if s'.coord.shutdownCount == s.coord.workerCount then [AskFlush, TellRequester] else []
  }

  lemma DownBroadcast(s: Sys, s': Sys)
    requires Shutdown(s) && TakesDown(s, s')
    ensures Broadcast(s) && !Finishing(s) && Taken(s) == s.inbox[1..]
    ensures Covered(s.inbox) ==> Covered(Taken(s))
  {
    TakenCounts(s, None);
    NextIsFirst(s.inbox);
    if Covered(s.inbox) {
      CoveredTail(s.inbox);
    }
  }

  lemma DownEnding(s: Sys, s': Sys)
    requires Shutdown(s) && Broadcast(s) && !Finishing(s) && TakesDown(s, s')
    ensures Ending(s') && !s.flushed
  {
  }

  lemma DownRequests(s: Sys, s': Sys)
    requires Requests(s) && Broadcast(s) && TakesDown(s, s')
    ensures Requests(s') && Broadcast(s')
  {
    TakenCounts(s, None);
  }

  lemma DownAfter(s: Sys, s': Sys)
    requires AfterBroadcast(s) && TakesDown(s, s') && (Covered(s.inbox) ==> Covered(Taken(s)))
    ensures AfterBroadcast(s')
  {
    hide Covered, ShutDownLast, Taken;
    TakenCounts(s, None);
  }

  lemma DownShutdown(s: Sys, s': Sys)
    requires Shutdown(s) && TakesDown(s, s')
    ensures Shutdown(s') && !s.flushed
  {
    hide TakesDown, Requests, AfterBroadcast, Ending, Finishing, Covered, Taken, Broadcast;
    DownBroadcast(s, s');
    DownEnding(s, s');
    DownRequests(s, s');
    DownAfter(s, s');
  }

  lemma DownShape(s: Sys, s': Sys)
    requires Shape(s) && Pressure(s) && TakesDown(s, s') && !s.flushed && s'.coord.pendingItems == s.coord.pendingItems
    ensures Shape(s') && Pressure(s')
  {
  }

  lemma DownTaken(s: Sys)
    requires Enabled(s, Deliver) && Next(s).QueueShutDown?
    ensures TakesDown(s, DoDeliver(s)) && TakesOther(s, DoDeliver(s))
    ensures DoDeliver(s).coord.pendingItems == s.coord.pendingItems
  {
    FinalEffects();
  }

  lemma DownInv(s: Sys)
    requires Inv(s) && Enabled(s, Deliver) && Next(s).QueueShutDown?
    ensures Inv(DoDeliver(s))
  {
    hide Shape, Counts, Data, Rows, Store, Claims, Replies, Pressure, Shutdown, TakesDown, TakesOther, DoDeliver;
    DownTaken(s);
    DownShutdown(s, DoDeliver(s));
    DownShape(s, DoDeliver(s));
    OtherInv(s, DoDeliver(s));
  }

  lemma DeliverInv(s: Sys)
    requires Inv(s) && Enabled(s, Deliver)
    ensures Inv(Do(s, Deliver))
  {
    hide Shape, Counts, Data, Rows, Store, Claims, Replies, Pressure, Shutdown, DoDeliver, Next, TakesResult;
    NextKind(s);
    if IsSweep(Next(s)) {
      SweepInv(s);
    } else if Next(s).ShutDownQueues? {
      ShutDownInv(s);
    } else if Next(s).QueueShutDown? {
      DownInv(s);
    } else {
      ResultTaken(s);
      ResultInv(s, DoDeliver(s));
    }
  }

  lemma NextKind(s: Sys)
    requires Shape(s) && s.inbox != []
    ensures InboxMessage(Next(s))
  {
  }

  lemma ResultTaken(s: Sys)
    requires Enabled(s, Deliver) && (Next(s).JobSucceeded? || Next(s).JobFailed?)
    ensures TakesResult(s, DoDeliver(s))
  {
  }

  // ----- the coordinator performs an effect -----

  lemma MarksSuffix(s: Sys)
    requires s.effects != []
    ensures MarksOf(s.effects) == (if s.effects[0].ToStore? then [s.effects[0].mark] else []) + MarksOf(s.effects[1..])
  {
  }

  lemma ToWorkerFlight(s: Sys, s': Sys, w: nat, k: Option<JobId>)
    requires s.effects != [] && s.effects[0].ToWorker? && w < |s.workers| && s' == DoPerform(s, w)
    ensures Flight(s', k) == Flight(s, k)
    ensures k.Some? ==> Attempts(s', k.value) == Attempts(s, k.value)
  {
    var m := ExecuteJobRequest(s.effects[0].job);
    if k.Some? {
      TimesSnoc(s.dispatched, m.job.id, k.value);
    }
    InboxSnoc(s.workers[w], m, k);
    WorkerChanged(s.workers, w, s.workers[w] + [m], k);
  }

  lemma ToWorkerData(s: Sys, s': Sys, w: nat)
    requires Data(s) && s.effects != [] && s.effects[0].ToWorker? && w < |s.workers| && s' == DoPerform(s, w)
    requires SamePlan(s, s')
    ensures Data(s')
  {
    forall job | UnderWay(s', job)
      ensures UnderWay(s, job)
    {
      if exists v :: 0 <= v < |s'.workers| && ExecuteJobRequest(job) in s'.workers[v] {
        var v :| 0 <= v < |s'.workers| && ExecuteJobRequest(job) in s'.workers[v];
        if v != w || ExecuteJobRequest(job) in s.workers[w] {
          assert ExecuteJobRequest(job) in s.workers[v];
        } else {
          assert s.effects[0] == ToWorker(job);
        }
      }
    }
    KeepsData(s, s');
  }

  /** Dispatching happens before the broadcast, and ends nothing. */
  lemma DispatchingStage(s: Sys)
    requires Dispatching(s.effects)
    ensures Finishing(s) <==> s.flushed || s.notified
    ensures s.effects != [BroadcastShutDown]
  {
    assert BroadcastShutDown in [BroadcastShutDown] && TellRequester in [TellRequester];
    assert TellRequester in [AskFlush, TellRequester];
  }

  lemma ToWorkerBefore(s: Sys, s': Sys, w: nat)
    requires BeforeBroadcast(s) && s.effects != [] && s.effects[0].ToWorker? && w < |s.workers|
    requires s' == DoPerform(s, w) && !Finishing(s')
    ensures BeforeBroadcast(s')
  {
    hide Finishing;
    InboxSnoc(s.workers[w], ExecuteJobRequest(s.effects[0].job), None);
  }

  lemma ToWorkerShutdown(s: Sys, s': Sys, w: nat)
    requires Shutdown(s) && Dispatching(s.effects) && Dispatching(s'.effects)
    requires s.effects != [] && s.effects[0].ToWorker? && w < |s.workers| && s' == DoPerform(s, w)
    ensures Shutdown(s')
  {
    hide BeforeBroadcast, AfterBroadcast, Dispatching;
    DispatchingStage(s);
    DispatchingStage(s');
    NotYetBroadcast(s);
    ToWorkerBefore(s, s', w);
    MarksSuffix(s);
  }

  lemma NotYetBroadcast(s: Sys)
    requires Shutdown(s) && s.effects != [] && s.effects[0].ToWorker?
    ensures !Broadcast(s) && BeforeBroadcast(s) && !Finishing(s)
  {
    assert s.effects[0] in s.effects;
  }

  lemma ToWorkerShape(s: Sys, s': Sys, w: nat)
    requires Shape(s) && s.wait.NotWaiting? && s.effects != [] && (s.effects[0].ToWorker? || s.effects[0].ToStore?)
    requires s.effects[0].ToWorker? ==> w < |s.workers|
    requires s' == DoPerform(s, w)
    ensures Shape(s') && Dispatching(s.effects) && Dispatching(s'.effects)
  {
    assert s.effects[0] in s.effects;
    assert Dispatching(s.effects);
    assert forall e :: e in s'.effects ==> e in s.effects;
    assert TellRequester !in s'.effects && AskFlush !in s'.effects;
    assert AskFlush in [AskFlush, TellRequester] && TellRequester in [TellRequester];
  }

  lemma ToWorkerRest(s: Sys, s': Sys, w: nat)
    requires Shape(s) && Store(s) && Pressure(s) && Shutdown(s) && s.wait.NotWaiting?
    requires s.effects != [] && s.effects[0].ToWorker? && w < |s.workers| && s' == DoPerform(s, w)
    ensures Shape(s') && Store(s') && Pressure(s') && Shutdown(s') && SamePlan(s, s')
  {
    ToWorkerShape(s, s', w);
    ToWorkerShutdown(s, s', w);
    KeepsStore(s, s');
    ToWorkerPressure(s, s', w);
  }

  lemma ToWorkerPressure(s: Sys, s': Sys, w: nat)
    requires Pressure(s) && s.wait.NotWaiting?
    requires s.effects != [] && s.effects[0].ToWorker? && w < |s.workers| && s' == DoPerform(s, w)
    requires Dispatching(s'.effects)
    ensures Pressure(s')
  {
    assert s'.effects != [] ==> s'.effects[0] in s'.effects;
  }

  lemma ToWorkerInv(s: Sys, w: nat)
    requires Inv(s) && Enabled(s, Perform(w)) && s.effects[0].ToWorker?
    ensures Inv(DoPerform(s, w))
  {
    hide Shape, Counts, Data, Rows, Store, Claims, Replies, Pressure, Shutdown;
    var s' := DoPerform(s, w);
    ToWorkerRest(s, s', w);
    ToWorkerCounts(s, s', w);
    ToWorkerData(s, s', w);
    hide SamePlan;
    KeepsRows(s, s');
    KeepsReplies(s, s');
    KeepsClaims(s, s');
  }

  lemma ToWorkerCounts(s: Sys, s': Sys, w: nat)
    requires Counts(s) && SamePlan(s, s')
    requires s.effects != [] && s.effects[0].ToWorker? && w < |s.workers| && s' == DoPerform(s, w)
    ensures Counts(s')
  {
    hide Counts;
    forall k
      ensures Flight(s', k) == Flight(s, k)
      ensures k.Some? ==> Attempts(s', k.value) == Attempts(s, k.value)
    {
      ToWorkerFlight(s, s', w, k);
    }
    assert forall j :: Attempts(s', j) == Attempts(s, j) by {
      forall j
        ensures Attempts(s', j) == Attempts(s, j)
      {
        ToWorkerFlight(s, s', w, Some(j));
      }
    }
    hide Flight, Attempts, DoPerform;
    KeepsCounts(s, s');
  }

  lemma ToStoreStore(s: Sys, s': Sys)
    requires Shape(s) && Store(s) && Shutdown(s) && s.wait.NotWaiting? && s.effects != [] && s.effects[0].ToStore?
    requires s' == DoPerform(s, 0)
    ensures Store(s') && SamePlan(s, s')
  {
    var m := s.effects[0].mark;
    MarksInSnoc(s.store, MarkJob(m));
    assert s'.sent[s.applied..] == s.sent[s.applied..] + [m];
    assert AppliedMarks(s') == AppliedMarks(s);
    MarksSuffix(s);
    assert Plan(s') == Plan(s);
    assert MarksOf(s.effects) != [];
    assert !s.flushed;
  }

  lemma ToStoreShutdown(s: Sys, s': Sys)
    requires Shape(s) && Shutdown(s) && s.wait.NotWaiting? && s.effects != [] && s.effects[0].ToStore?
    requires s' == DoPerform(s, 0)
    ensures Shutdown(s')
  {
    ToWorkerShape(s, s', 0);
    MarksSuffix(s);
  }

  lemma ToStoreRest(s: Sys, s': Sys)
    requires Shape(s) && Store(s) && Pressure(s) && Shutdown(s) && s.wait.NotWaiting?
    requires s.effects != [] && s.effects[0].ToStore? && s' == DoPerform(s, 0)
    ensures Shape(s') && Store(s') && Pressure(s') && Shutdown(s')
  {
    hide Shape, Store, Shutdown;
    ToWorkerShape(s, s', 0);
    ToStoreStore(s, s');
    ToStoreShutdown(s, s');
    assert s'.effects != [] ==> s'.effects[0] in s'.effects;
  }

  lemma ToStoreInv(s: Sys)
    requires Inv(s) && Enabled(s, Perform(0)) && s.effects[0].ToStore?
    ensures Inv(DoPerform(s, 0))
  {
    hide Shape, Counts, Data, Rows, Store, Claims, Replies, Pressure, Shutdown;
    var s' := DoPerform(s, 0);
    StoreApplied(s);
    ToStoreRest(s, s');
    hide Enabled;
    assert forall k :: Flight(s', k) == Flight(s, k);
    KeepsCounts(s, s');
    KeepsData(s, s');
    KeepsRows(s, s');
    KeepsReplies(s, s');
    KeepsClaims(s, s');
  }

  /** The effects that are not part of a dispatch come alone, but for the final ask. */
  lemma ControlEffects(s: Sys)
    requires Shape(s) && s.effects != [] && !s.effects[0].ToWorker? && !s.effects[0].ToStore?
    ensures s.effects[0].BroadcastShutDown? ==> s.effects == [BroadcastShutDown]
    ensures s.effects[0].AskJobs? ==> s.effects == [AskJobs(s.coord.workerCount)]
    ensures s.effects[0].AskFlush? ==> s.effects == [AskFlush, TellRequester] && !s.flushed
    ensures s.effects[0].TellRequester? ==> s.effects == [TellRequester] && (s.wait.NotWaiting? ==> s.flushed)
    ensures s.effects[0].ToSelf? ==> s.effects == [ToSelf]
    ensures !s.effects[0].TellConfigured?
  {
    assert s.effects[0] in s.effects;
  }

  lemma ToSelfInv(s: Sys)
    requires Inv(s) && Enabled(s, Perform(0)) && s.effects[0].ToSelf?
    ensures Inv(DoPerform(s, 0))
  {
    hide Shape, Counts, Data, Rows, Store, Claims, Replies, Pressure, Shutdown;
    ControlEffects(s);
    assert s.effects[1..] == [];
    GrowsShutdown(s, DoPerform(s, 0), SilentRetrySweep);
    InboxGrowsInv(s, DoPerform(s, 0), SilentRetrySweep);
  }

  /** An effect that sends nothing to workers, store or self. */
  lemma ControlInv(s: Sys, s': Sys)
    requires Inv(s) && s.effects != []
    requires !s.effects[0].ToWorker? && !s.effects[0].ToStore?
    requires s' == s.(effects := s.effects[1..], workers := s'.workers, store := s'.store, asked := s'.asked,
                      reply := None, wait := s'.wait, notified := s'.notified)
    requires forall k :: CarriedBy(s'.workers, k) == CarriedBy(s.workers, k)
    requires forall job, w :: 0 <= w < |s'.workers| && ExecuteJobRequest(job) in s'.workers[w] ==>
               w < |s.workers| && ExecuteJobRequest(job) in s.workers[w]
    requires Shape(s') && Store(s') && Pressure(s') && Shutdown(s')
    ensures Inv(s')
  {
    hide Shape, Counts, Data, Rows, Store, Claims, Pressure, Shutdown;
    assert SamePlan(s, s');
    assert forall k :: Flight(s', k) == Flight(s, k);
    KeepsCounts(s, s');
    KeepsData(s, s');
    KeepsRows(s, s');
    KeepsClaims(s, s');
  }

  lemma NoneToCarry(q: seq<Message>)
    requires CarriedIn(q, None) == 0
    ensures forall i :: 0 <= i < |q| ==> !HasJob(q[i])
  {
    forall i | 0 <= i < |q|
      ensures !HasJob(q[i])
    {
      InboxWithout(q, i, None);
    }
  }

  lemma BroadcastShutdown(s: Sys, s': Sys)
    requires Shape(s) && Counts(s) && Pressure(s) && Shutdown(s) && s.effects == [BroadcastShutDown]
    requires s.wait.NotWaiting? && s' == DoPerform(s, 0)
    ensures Shutdown(s')
  {
    assert s'.workers == Broadcasted(s.workers);
    BroadcastCarries(s.workers, None);
    forall w | 0 <= w < |s'.workers|
      ensures ShutDownLast(s'.workers[w])
    {
      InboxSnoc(s.workers[w], ShutDownQueues, None);
    }
    assert MarksOf(s'.effects) == [];
    if Active(s'.workers) == 0 {
      NoneToCarry(s.inbox);
    }
  }

  lemma ControlShape(s: Sys)
    requires Shape(s) && Pressure(s) && Enabled(s, Perform(0)) && !s.effects[0].ToWorker? && !s.effects[0].ToStore?
    requires s.effects[0].AskFlush? ==> !s.flushed
    requires !s.effects[0].ToSelf?
    ensures Shape(DoPerform(s, 0)) && Pressure(DoPerform(s, 0)) && s.reply.None?
  {
    hide Pressure;
    ControlEffects(s);
    ControlPressure(s);
    assert [TellRequester][1..] == [];
    assert [AskFlush, TellRequester][1..] == [TellRequester];
  }

  lemma ControlPressure(s: Sys)
    requires Shape(s) && Pressure(s) && Enabled(s, Perform(0)) && !s.effects[0].ToWorker? && !s.effects[0].ToStore?
    ensures Pressure(DoPerform(s, 0))
  {
    hide Shape;
    ControlEffects(s);
    assert s.effects[1..] == [] || s.effects[1..] == [TellRequester];
    assert DoPerform(s, 0).effects == s.effects[1..];
  }

  lemma BroadcastInv(s: Sys)
    requires Inv(s) && Enabled(s, Perform(0)) && s.effects[0].BroadcastShutDown?
    ensures Inv(DoPerform(s, 0))
  {
    hide Shape, Counts, Data, Rows, Store, Claims, Replies, Pressure, Shutdown;
    var s' := DoPerform(s, 0);
    ControlEffects(s);
    ControlShape(s);
    BroadcastShutdown(s, s');
    KeepsStore(s, s');
    assert s'.workers == Broadcasted(s.workers);
    forall k
      ensures CarriedBy(s'.workers, k) == CarriedBy(s.workers, k)
    {
      BroadcastCarries(s.workers, k);
    }
    ControlInv(s, s');
  }

  lemma AskJobsStore(s: Sys, s': Sys)
    requires Shape(s) && Store(s) && s.wait.NotWaiting? && s.effects == [AskJobs(s.coord.workerCount)]
    requires s' == DoPerform(s, 0) && !s.flushed
    ensures Store(s')
  {
    MarksInSnoc(s.store, GetJobs(s.coord.workerCount, s.asked + 1));
  }

  lemma AskJobsShutdown(s: Sys, s': Sys)
    requires Shutdown(s) && s.wait.NotWaiting? && s.effects == [AskJobs(s.coord.workerCount)]
    requires s' == DoPerform(s, 0)
    ensures Shutdown(s') && !s.flushed
  {
    assert s.effects[1..] == [];
    if s.flushed {
      FinishingMeansEmpty(s);
    }
  }

  lemma AskFlushStore(s: Sys, s': Sys)
    requires Shape(s) && Store(s) && Shutdown(s) && s.wait.NotWaiting? && s.effects == [AskFlush, TellRequester]
    requires s' == DoPerform(s, 0)
    ensures Store(s') && Shutdown(s')
  {
    MarksInSnoc(s.store, ShutDownQueues);
    assert s.effects[1..] == [TellRequester];
    FinalEffects();
  }

  lemma AskJobsInv(s: Sys)
    requires Inv(s) && Enabled(s, Perform(0)) && s.effects[0].AskJobs?
    ensures Inv(DoPerform(s, 0))
  {
    hide Shape, Counts, Data, Rows, Store, Claims, Replies, Pressure, Shutdown;
    var s' := DoPerform(s, 0);
    ControlEffects(s);
    AskJobsShutdown(s, s');
    AskJobsStore(s, s');
    assert s.effects[1..] == [];
    ControlShape(s);
    ControlInv(s, s');
  }

  lemma AskFlushInv(s: Sys)
    requires Inv(s) && Enabled(s, Perform(0)) && s.effects[0].AskFlush?
    ensures Inv(DoPerform(s, 0))
  {
    hide Shape, Counts, Data, Rows, Store, Claims, Replies, Pressure, Shutdown;
    var s' := DoPerform(s, 0);
    ControlEffects(s);
    AskFlushStore(s, s');
    assert s.effects[1..] == [TellRequester];
    ControlShape(s);
    ControlInv(s, s');
  }

  lemma TellShutdown(s: Sys, s': Sys)
    requires Shutdown(s) && s.effects == [TellRequester] && s.flushed && s' == DoPerform(s, 0)
    ensures Shutdown(s')
  {
    assert s.effects[1..] == [];
  }

  lemma TellRequesterInv(s: Sys)
    requires Inv(s) && Enabled(s, Perform(0)) && s.effects[0].TellRequester?
    ensures Inv(DoPerform(s, 0))
  {
    hide Shape, Counts, Data, Rows, Store, Claims, Replies, Pressure, Shutdown;
    var s' := DoPerform(s, 0);
    ControlEffects(s);
    assert s.effects[1..] == [];
    TellShutdown(s, s');
    ControlShape(s);
    KeepsStore(s, s');
    ControlInv(s, s');
  }

  lemma PerformInv(s: Sys, w: nat)
    requires Inv(s) && Enabled(s, Perform(w))
    ensures Inv(Do(s, Perform(w)))
  {
    var e := s.effects[0];
    assert e in s.effects;
    assert !e.TellConfigured?;
    hide Shape, Counts, Data, Rows, Store, Claims, Replies, Pressure, Shutdown;
    match e
    case ToWorker(_) => ToWorkerInv(s, w);
    case ToStore(_) => ToStoreInv(s);
    case ToSelf => ToSelfInv(s);
    case BroadcastShutDown => BroadcastInv(s);
    case AskJobs(_) => AskJobsInv(s);
    case AskFlush => AskFlushInv(s);
    case TellRequester => TellRequesterInv(s);
  }

  // ----- the coordinator resumes after an ask -----

  ghost predicate Resumes(s: Sys, s': Sys, fs: seq<Fetched>)
  {
    && s.wait.ForJobs? && s.reply == Some(fs) && s.effects == []
    && s' == DoReply(s, s.reply)
  }

  lemma ReplyCounts(s: Sys, s': Sys, fs: seq<Fetched>)
    requires Counts(s) && Replies(s) && Resumes(s, s', fs)
    ensures Counts(s') && AppliedMarks(s') == AppliedMarks(s)
    ensures forall j :: Retries(Plan(s'), j) == Retries(Plan(s), j)
  {
    assert Plan(s) == s.sent;
    DispatchToldAll(fs);
    DispatchStarts(s.sent, fs, 0);
    forall j
      ensures Flight(s', Some(j)) == One(Running(Plan(s'), j)) && Attempts(s', j) == Runs(Plan(s'), j)
      ensures Retries(Plan(s'), j) == Retries(Plan(s), j)
    {
      DispatchStarts(s.sent, fs, j);
    }
  }

  lemma ReplyJob(s: Sys, s': Sys, job: Job)
    requires JobData(s, job) && s'.table == s.table && s'.queue == s.queue
    requires AppliedMarks(s') == AppliedMarks(s)
    requires Retries(Plan(s'), job.id) == Retries(Plan(s), job.id)
    ensures JobData(s', job)
  {
  }

  lemma ReplyUnderWay(s: Sys, s': Sys, fs: seq<Fetched>, job: Job)
    requires Data(s) && Replies(s) && Resumes(s, s', fs) && UnderWay(s', job)
    ensures JobData(s, job)
  {
    if ToWorker(job) in s'.effects {
      DispatchConcernsFetched(fs, ToWorker(job));
    } else {
      assert UnderWay(s, job);
    }
  }

  lemma ReplyData(s: Sys, s': Sys, fs: seq<Fetched>)
    requires Data(s) && Replies(s) && Resumes(s, s', fs)
    requires AppliedMarks(s') == AppliedMarks(s)
    requires forall j :: Retries(Plan(s'), j) == Retries(Plan(s), j)
    ensures Data(s')
  {
    forall job | UnderWay(s', job)
      ensures JobData(s', job)
    {
      ReplyUnderWay(s, s', fs, job);
      ReplyJob(s, s', job);
    }
  }

  lemma ReplyRows(s: Sys, s': Sys, fs: seq<Fetched>)
    requires Rows(s) && Replies(s) && Resumes(s, s', fs)
    requires AppliedMarks(s') == AppliedMarks(s)
    requires forall j :: Retries(Plan(s'), j) == Retries(Plan(s), j)
    ensures Rows(s')
  {
    forall m | m in Plan(s')
      ensures Mine(s', m.id)
    {
      if m in s.sent {
        assert m in Plan(s);
      } else {
        MarksOfMember(s'.effects, m);
        DispatchConcernsFetched(fs, ToStore(m));
        var i :| 0 <= i < |fs| && fs[i].job.id == m.id;
        assert JobData(s, fs[i].job);
      }
    }
    forall j | Mine(s', j)
      ensures RowBudget(s', j)
    {
      assert RowBudget(s, j);
    }
  }

  lemma ReplyRest(s: Sys, s': Sys, fs: seq<Fetched>)
    requires Shape(s) && Store(s) && Replies(s) && Pressure(s) && Shutdown(s) && Resumes(s, s', fs)
    ensures Shape(s') && Store(s') && Replies(s') && Pressure(s') && Shutdown(s')
  {
    forall e | e in s'.effects
      ensures e.ToWorker? || e.ToStore?
    {
      DispatchConcernsFetched(fs, e);
    }
    assert Dispatching(s'.effects);
    assert s'.effects != [] ==> s'.effects[0] in s'.effects;
    assert AskFlush in [AskFlush, TellRequester] && TellRequester in [TellRequester];
    assert BroadcastShutDown in [BroadcastShutDown] && AskJobs(s.coord.workerCount) in [AskJobs(s.coord.workerCount)];
    assert !s.coord.shuttingDown;
  }

  lemma ReplyInv(s: Sys)
    requires Inv(s) && Enabled(s, ReplyArrives)
    ensures Inv(Do(s, ReplyArrives))
  {
    var s' := DoReply(s, s.reply);
    assert Resumes(s, s', s.reply.value);
    hide Shape, Counts, Data, Rows, Store, Claims, Replies, Pressure, Shutdown;
    ReplyCounts(s, s', s.reply.value);
    ReplyData(s, s', s.reply.value);
    ReplyRows(s, s', s.reply.value);
    ReplyRest(s, s', s.reply.value);
    KeepsClaims(s, s');
  }

  /** The ask is over without effect: it timed out, or it was the final one. */
  lemma WaitEnds(s: Sys, s': Sys)
    requires Shape(s) && Store(s) && Pressure(s) && Shutdown(s) && Replies(s)
    requires s.wait.ForJobs? || (s.wait.ForFlush? && s.flushed)
    requires s' == s.(wait := NotWaiting, reply := None)
    ensures Shape(s') && Store(s') && Pressure(s') && Shutdown(s') && Replies(s')
  {
  }

  lemma WaitEndsInv(s: Sys, step: Step)
    requires Inv(s) && Enabled(s, step) && (step.AskTimesOut? || step.FlushArrives?)
    ensures Inv(Do(s, step))
  {
    var s' := Do(s, step);
    assert s' == s.(wait := NotWaiting, reply := None);
    WaitEnds(s, s');
    hide Shape, Counts, Data, Rows, Store, Claims, Replies, Pressure, Shutdown;
    assert SamePlan(s, s');
    KeepsCounts(s, s');
    KeepsData(s, s');
    KeepsRows(s, s');
    KeepsClaims(s, s');
  }

  // ----- a worker finishes a request, or answers the shutdown -----

  ghost predicate Works(s: Sys, s': Sys, w: nat, m: Message, r: Message)
  {
    && w < |s.workers| && s.workers[w] != [] && s.workers[w][0] == m
    && s' == s.(workers := s.workers[w := s.workers[w][1..]], inbox := s.inbox + [r])
    && (if m.ShutDownQueues? then r == QueueShutDown
        else m.ExecuteJobRequest? && (r == JobSucceeded(m.job) || r == JobFailed(m.job)))
  }

  lemma WorkFlight(s: Sys, s': Sys, w: nat, m: Message, r: Message, k: Option<JobId>)
    requires Works(s, s', w, m, r)
    ensures Flight(s', k) == Flight(s, k)
  {
    hide CarriedIn, CarriedBy, Told, Active, Downs, ShutDowns;
    WorkerChanged(s.workers, w, s.workers[w][1..], k);
    InboxWithout(s.workers[w], 0, k);
    assert s.workers[w][..0] + s.workers[w][1..] == s.workers[w][1..];
    InboxSnoc(s.inbox, r, k);
  }

  lemma WorkData(s: Sys, s': Sys, w: nat, m: Message, r: Message)
    requires Data(s) && Works(s, s', w, m, r)
    ensures Data(s')
  {
    forall job | UnderWay(s', job)
      ensures UnderWay(s, job)
    {
      if exists v :: 0 <= v < |s'.workers| && ExecuteJobRequest(job) in s'.workers[v] {
        var v :| 0 <= v < |s'.workers| && ExecuteJobRequest(job) in s'.workers[v];
        assert ExecuteJobRequest(job) in s.workers[v];
      } else if !UnderWay(s, job) {
        assert m in s.workers[w];
      }
    }
    KeepsData(s, s');
  }

  /** A mailbox that ends in its only shutdown request, one message further. */
  lemma ShutDownLastTail(q: seq<Message>)
    requires q != [] && ShutDownLast(q)
    ensures ShutDownLast(q[1..])
    ensures q[1..] == [] <==> q[0].ShutDownQueues?
  {
    InboxWithout(q, 0, None);
    assert q[..0] + q[1..] == q[1..];
    NoDowns(q[1..]);
    assert |q| > 1 ==> q[1..][|q| - 2] == q[|q| - 1];
  }

  lemma WorkCounts(s: Sys, s': Sys, w: nat, m: Message, r: Message)
    requires Works(s, s', w, m, r)
    ensures Downs(s'.inbox) == Downs(s.inbox) + One(m.ShutDownQueues?) && ShutDowns(s'.inbox) == ShutDowns(s.inbox)
    ensures ShutDowns(s.workers[w]) == ShutDowns(s'.workers[w]) + One(m.ShutDownQueues?)
    ensures Active(s'.workers) + 1 == Active(s.workers) + One(s'.workers[w] != [])
    ensures s'.workers == s.workers[w := s.workers[w][1..]]
  {
    hide CarriedIn, CarriedBy, Carries;
    WorkerChanged(s.workers, w, s.workers[w][1..], None);
    InboxSnoc(s.inbox, r, None);
    InboxWithout(s.workers[w], 0, None);
    assert s.workers[w][..0] + s.workers[w][1..] == s.workers[w][1..];
  }

  lemma WorkBefore(s: Sys, s': Sys, w: nat, m: Message, r: Message)
    requires BeforeBroadcast(s) && Works(s, s', w, m, r)
    ensures BeforeBroadcast(s')
  {
    hide Downs, ShutDowns, Active;
    WorkCounts(s, s', w, m, r);
  }

  lemma WorkAfter(s: Sys, s': Sys, w: nat, m: Message, r: Message)
    requires AfterBroadcast(s) && Works(s, s', w, m, r)
    ensures AfterBroadcast(s')
  {
    hide Downs, ShutDowns, Active, ShutDownLast, Covered;
    WorkCounts(s, s', w, m, r);
    assert ShutDownLast(s.workers[w]);
    ShutDownLastTail(s.workers[w]);
    NothingActive(s'.workers, None);
    if m.ShutDownQueues? {
      CoveredByDown(s.inbox);
    }
  }

  lemma WorkShutdown(s: Sys, s': Sys, w: nat, m: Message, r: Message)
    requires Shutdown(s) && Works(s, s', w, m, r)
    ensures Shutdown(s')
  {
    hide Downs, ShutDowns, BeforeBroadcast, AfterBroadcast;
    WorkCounts(s, s', w, m, r);
    if Broadcast(s) {
      WorkAfter(s, s', w, m, r);
    } else {
      WorkBefore(s, s', w, m, r);
    }
  }

  lemma CoveredByDown(q: seq<Message>)
    ensures Covered(q + [QueueShutDown])
  {
    var q' := q + [QueueShutDown];
    forall i | 0 <= i < |q'| && HasJob(q'[i])
      ensures exists k :: i < k < |q'| && q'[k].QueueShutDown?
    {
      assert q'[|q|].QueueShutDown?;
    }
  }

  lemma WorkShape(s: Sys, s': Sys, w: nat, m: Message, r: Message)
    requires Shape(s) && Pressure(s) && Works(s, s', w, m, r)
    ensures Shape(s') && Pressure(s')
  {
  }

  lemma WorkInv(s: Sys, s': Sys, w: nat, m: Message, r: Message)
    requires Inv(s) && Works(s, s', w, m, r)
    ensures Inv(s')
  {
    hide Shape, Counts, Data, Rows, Store, Claims, Replies, Pressure, Shutdown;
    assert SamePlan(s, s');
    forall k
      ensures Flight(s', k) == Flight(s, k)
    {
      WorkFlight(s, s', w, m, r, k);
    }
    KeepsCounts(s, s');
    WorkData(s, s', w, m, r);
    WorkShutdown(s, s', w, m, r);
    WorkShape(s, s', w, m, r);
    KeepsRows(s, s');
    KeepsReplies(s, s');
    KeepsClaims(s, s');
    KeepsStore(s, s');
  }

  lemma WorkerInv(s: Sys, w: nat, succeeds: bool)
    requires Inv(s) && Enabled(s, WorkerRuns(w, succeeds))
    ensures Inv(Do(s, WorkerRuns(w, succeeds)))
  {
    var m := s.workers[w][0];
    assert WorkerMessage(m);
    hide Shape, Counts, Data, Rows, Store, Claims, Replies, Pressure, Shutdown;
    WorkInv(s, Do(s, WorkerRuns(w, succeeds)), w, m, WorkerReply(m, succeeds).value);
  }

  // ----- the storage actor -----

  lemma StoreTail(q: seq<Message>)
    requires q != []
    ensures MarksIn(q) == (if q[0].MarkJob? then [q[0].mark] else []) + MarksIn(q[1..])
  {
  }

  ghost predicate AppliesMark(s: Sys, s': Sys, m: Mark)
  {
    && s.claiming.None? && s.store != [] && s.store[0] == MarkJob(m)
    && s' == s.(store := s.store[1..], table := ApplyMark(s.table, m, s.clock), applied := s.applied + 1)
  }

  lemma MarkApplied(s: Sys, s': Sys, m: Mark, j: JobId)
    requires Store(s) && AppliesMark(s, s', m)
    ensures Store(s') && s.reply.None?
    ensures m in s.sent
    ensures Plan(s') == Plan(s)
    ensures AppliedMarks(s') == AppliedMarks(s) + [m] && AppliedMarks(s') <= Plan(s)
    ensures Last(AppliedMarks(s'), j) == if m.id == j then Some(m) else Last(AppliedMarks(s), j)
    ensures Retries(AppliedMarks(s'), j) == Retries(AppliedMarks(s), j) + One(m == MarkRetry(j))
  {
    StoreTail(s.store);
    assert s.sent[s.applied..][0] == m;
    assert s.sent[s.applied..][1..] == s.sent[s.applied + 1..];
    assert s.sent[..s.applied + 1] == s.sent[..s.applied] + [m];
    Snoc(AppliedMarks(s), m, j);
  }

  lemma MarkRowBudget(s: Sys, s': Sys, m: Mark, j: JobId)
    requires Store(s) && Mine(s, j) && RowBudget(s, j) && AppliesMark(s, s', m)
    ensures Mine(s', j) && RowBudget(s', j) && Promised(s', j) == Promised(s, j)
    ensures s'.table[j].maxRetries == s.table[j].maxRetries
  {
    hide Store, Plan, AppliedMarks, Last, Retries;
    MarkApplied(s, s', m, j);
    assert AppliedMarks(s') == Plan(s)[..|AppliedMarks(s')|];
    RetriesGrow(Plan(s), |AppliedMarks(s')|, j);
  }

  lemma MarkRows(s: Sys, s': Sys, m: Mark)
    requires Store(s) && Rows(s) && AppliesMark(s, s', m)
    ensures Rows(s')
    ensures forall job :: JobData(s, job) ==> JobData(s', job)
  {
    MarkApplied(s, s', m, 0);
    assert m in Plan(s) && Mine(s, m.id);
    forall j | Mine(s, j)
      ensures Mine(s', j) && RowBudget(s', j) && Promised(s', j) == Promised(s, j)
      ensures s'.table[j].maxRetries == s.table[j].maxRetries
    {
      MarkRowBudget(s, s', m, j);
    }
    hide RowBudget;
    assert forall j :: Mine(s', j) ==> Mine(s, j);
    assert forall k :: k in Plan(s') ==> Mine(s, k.id) && Mine(s', k.id);
  }

  lemma MarkData(s: Sys, s': Sys, m: Mark)
    requires Data(s) && AppliesMark(s, s', m)
    requires forall job :: JobData(s, job) ==> JobData(s', job)
    ensures Data(s')
  {
    assert forall job :: UnderWay(s', job) ==> UnderWay(s, job);
  }

  lemma MarkRest(s: Sys, s': Sys, m: Mark)
    requires Shape(s) && Store(s) && Claims(s) && Replies(s) && Pressure(s) && Shutdown(s) && AppliesMark(s, s', m)
    ensures Shape(s') && Claims(s') && Replies(s') && Pressure(s')
  {
    MarkApplied(s, s', m, 0);
  }

  lemma AppliesMarkInv(s: Sys, s': Sys, m: Mark)
    requires Inv(s) && AppliesMark(s, s', m)
    ensures Inv(s')
  {
    hide Shape, Counts, Data, Rows, Store, Claims, Replies, Pressure, Shutdown;
    MarkApplied(s, s', m, 0);
    MarkRows(s, s', m);
    MarkData(s, s', m);
    MarkRest(s, s', m);
    KeepsCounts(s, s');
    KeepsShutdown(s, s');
  }

  lemma StoreMarksInv(s: Sys)
    requires Inv(s) && Enabled(s, StoreMarks)
    ensures Inv(Do(s, StoreMarks))
  {
    hide Shape, Counts, Data, Rows, Store, Claims, Replies, Pressure, Shutdown;
    AppliesMarkInv(s, Do(s, StoreMarks), s.store[0].mark);
  }

  lemma ClaimedRows(s: Sys, s': Sys, chosen: set<JobId>, guid: Guid, lockTime: Time)
    requires Rows(s) && Data(s) && Replies(s)
    requires s' == s.(table := Claim(s.table, chosen, guid, lockTime), claiming := Some(guid))
    ensures Rows(s') && Data(s') && Replies(s')
  {
    hide Rows, Data, Replies;
    var s1 := s.(table := s'.table);
    assert forall j :: j in s1.table ==> Untouched(s, s1.table, j);
    TableRows(s, s1);
    assert SamePlan(s, s1);
    assert forall job :: JobData(s, job) ==> JobData(s1, job);
    TableData(s, s1);
    KeepsRows(s1, s');
    KeepsData(s1, s');
    KeepsReplies(s1, s');
  }

  lemma ClaimsHold(s: Sys, s': Sys, chosen: set<JobId>, guid: Guid, lockTime: Time, thresholdTime: Time)
    requires Store(s) && Enabled(s, StoreClaims(chosen, guid, lockTime, thresholdTime))
    requires s' == Do(s, StoreClaims(chosen, guid, lockTime, thresholdTime))
    ensures Claims(s')
  {
    ClaimedAreHeld(s.table, chosen, guid, lockTime);
    forall j | j in chosen
      ensures Mine(s', j) && (s'.table[j].status.New? || s'.table[j].status.Retry?)
    {
      assert j in Eligible(s.table, {s.queue}, lockTime, thresholdTime - s.lockTimeout);
    }
  }

  lemma StoreClaimsInv(s: Sys, chosen: set<JobId>, guid: Guid, lockTime: Time, thresholdTime: Time)
    requires Inv(s) && Enabled(s, StoreClaims(chosen, guid, lockTime, thresholdTime))
    ensures Inv(Do(s, StoreClaims(chosen, guid, lockTime, thresholdTime)))
  {
    hide Shape, Counts, Data, Rows, Store, Claims, Replies, Pressure, Shutdown;
    var s' := Do(s, StoreClaims(chosen, guid, lockTime, thresholdTime));
    ClaimedRows(s, s', chosen, guid, lockTime);
    ClaimsHold(s, s', chosen, guid, lockTime, thresholdTime);
    assert SamePlan(s, s');
    KeepsShape(s, s');
    KeepsCounts(s, s');
    KeepsShutdown(s, s');
    ClaimingStore(s, s');
  }

  lemma ClaimingStore(s: Sys, s': Sys)
    requires Store(s) && s.store != [] && s.store[0].GetJobs?
    requires s' == s.(table := s'.table, claiming := s'.claiming)
    ensures Store(s')
  {
  }

  /** Distinct ids of a set are no more than the set has members. */
  lemma {:induction false} DistinctFits(fs: seq<Fetched>, ids: set<JobId>)
    requires Distinct(fs) && forall i :: 0 <= i < |fs| ==> fs[i].job.id in ids
    ensures |fs| <= |ids|
  {
    if fs != [] {
      var n := |fs| - 1;
      DistinctFits(fs[..n], ids - {fs[n].job.id});
    }
  }

  /** Is the GetJobs at the head of the store's mailbox the one that the coordinator waits for? */
  predicate Live(s: Sys)
    requires s.store != [] && s.store[0].GetJobs?
  {
    s.wait.ForJobs? && s.store[0].ask == s.asked
  }

  lemma ReadsShape(s: Sys, fs: seq<Fetched>)
    requires Shape(s) && Store(s) && Enabled(s, StoreReads(fs))
    ensures Shape(DoReads(s, fs))
  {
    hide ReadsAs;
  }

  lemma LiveIsAlone(s: Sys)
    requires Store(s) && s.store != [] && s.store[0].GetJobs? && Live(s)
    ensures |s.store| == 1 && s.sent[s.applied..] == [] && s.reply.None?
  {
    StoreTail(s.store);
  }

  lemma ReadsPlan(s: Sys, fs: seq<Fetched>)
    requires Shape(s) && Store(s) && Enabled(s, StoreReads(fs)) && Live(s)
    ensures Plan(s) == AppliedMarks(s)
  {
    hide ReadsAs, Store;
    LiveIsAlone(s);
    StoreApplied(s);
    assert s.sent[..s.applied] == s.sent;
    assert Plan(s) == s.sent;
  }

  lemma StoreApplied(s: Sys)
    requires Store(s)
    ensures s.applied <= |s.sent|
  {
  }

  lemma LiveStore(s: Sys, fs: seq<Fetched>)
    requires Store(s) && Enabled(s, StoreReads(fs)) && Live(s)
    ensures Store(DoReads(s, fs))
  {
    hide ReadsAs;
    LiveIsAlone(s);
    assert s.store[1..] == [];
  }

  lemma LostStore(s: Sys, fs: seq<Fetched>)
    requires Store(s) && Enabled(s, StoreReads(fs)) && !Live(s)
    ensures Store(DoReads(s, fs))
  {
    hide ReadsAs;
    StoreTail(s.store);
  }

  lemma ReadsStore(s: Sys, fs: seq<Fetched>)
    requires Shape(s) && Store(s) && Enabled(s, StoreReads(fs))
    ensures Store(DoReads(s, fs)) && Shape(DoReads(s, fs))
    ensures Live(s) ==> Plan(s) == AppliedMarks(s)
  {
    hide ReadsAs, Shape, Store;
    ReadsShape(s, fs);
    if Live(s) {
      LiveStore(s, fs);
      ReadsPlan(s, fs);
    } else {
      LostStore(s, fs);
    }
  }

  lemma ReadsReplies(s: Sys, fs: seq<Fetched>)
    requires Rows(s) && Claims(s) && Replies(s) && Enabled(s, StoreReads(fs))
    requires Live(s) && Plan(s) == AppliedMarks(s)
    ensures Replies(DoReads(s, fs))
  {
    var s' := DoReads(s, fs);
    DistinctFits(fs, Holding(s.table, s.claiming.value));
    assert SamePlan(s, s');
    forall i | 0 <= i < |fs|
      ensures JobData(s', fs[i].job) && Ready(Plan(s'), fs[i].job.id)
    {
      ReadJob(s, fs, i);
    }
  }

  /** A job read back is one of this queue's, with its retry data, and ready. */
  lemma ReadJob(s: Sys, fs: seq<Fetched>, i: nat)
    requires Rows(s) && Claims(s) && Enabled(s, StoreReads(fs)) && Plan(s) == AppliedMarks(s) && i < |fs|
    ensures JobData(s, fs[i].job) && Ready(Plan(s), fs[i].job.id)
  {
    var j := fs[i].job.id;
    assert j in Holding(s.table, s.claiming.value) && Mine(s, j);
    assert RowBudget(s, j);
  }

  lemma ReadsRest(s: Sys, fs: seq<Fetched>)
    requires Replies(s) && Pressure(s) && Enabled(s, StoreReads(fs)) && !Live(s)
    ensures Replies(DoReads(s, fs))
  {
    assert SamePlan(s, DoReads(s, fs));
  }

  lemma ReadsEnd(s: Sys, fs: seq<Fetched>)
    requires Pressure(s) && Enabled(s, StoreReads(fs))
    ensures Pressure(DoReads(s, fs)) && Claims(DoReads(s, fs))
  {
  }

  lemma ReadsKeeps(s: Sys, s': Sys)
    requires Counts(s) && Data(s) && Rows(s) && Shutdown(s)
    requires s' == s.(store := s'.store, claiming := None, reply := s'.reply)
    ensures Counts(s') && Data(s') && Rows(s') && Shutdown(s')
  {
    hide Counts, Data, Rows, Shutdown;
    assert SamePlan(s, s');
    KeepsCounts(s, s');
    KeepsData(s, s');
    KeepsRows(s, s');
    KeepsShutdown(s, s');
  }

  lemma StoreReadsInv(s: Sys, fs: seq<Fetched>)
    requires Inv(s) && Enabled(s, StoreReads(fs))
    ensures Inv(Do(s, StoreReads(fs)))
  {
    var s' := DoReads(s, fs);
    hide Shape, Counts, Data, Rows, Store, Claims, Replies, Pressure, Shutdown;
    ReadsStore(s, fs);
    ReadsEnd(s, fs);
    if Live(s) {
      ReadsReplies(s, fs);
    } else {
      ReadsRest(s, fs);
    }
    assert s' == s.(store := s'.store, claiming := None, reply := s'.reply);
    hide Enabled, Do, DoReads;
    ReadsKeeps(s, s');
  }

  lemma FlushStore(s: Sys, s': Sys)
    requires Shape(s) && Store(s) && Shutdown(s) && Replies(s) && Pressure(s) && Enabled(s, StoreFlushes)
    requires s' == Do(s, StoreFlushes)
    ensures Shape(s') && Store(s') && Shutdown(s') && Replies(s') && Pressure(s')
  {
    StoreTail(s.store);
    assert |s.store| == 1;
    FinalEffects();
    OneEffect(TellRequester);
  }

  lemma StoreFlushesInv(s: Sys)
    requires Inv(s) && Enabled(s, StoreFlushes)
    ensures Inv(Do(s, StoreFlushes))
  {
    var s' := Do(s, StoreFlushes);
    hide Shape, Counts, Data, Rows, Store, Claims, Replies, Pressure, Shutdown;
    FlushStore(s, s');
    assert SamePlan(s, s');
    KeepsCounts(s, s');
    KeepsData(s, s');
    KeepsRows(s, s');
    KeepsClaims(s, s');
  }

  // ----- every step -----

  lemma StepInv(s: Sys, step: Step)
    requires Inv(s) && Enabled(s, step)
    ensures Inv(Do(s, step))
  {
    hide Shape, Counts, Data, Rows, Store, Claims, Replies, Pressure, Shutdown;
    match step
    case Pulse => PulseInv(s);
    case RequestShutDown => RequestInv(s);
    case Deliver => DeliverInv(s);
    case Perform(w) => PerformInv(s, w);
    case ReplyArrives => ReplyInv(s);
    case AskTimesOut => WaitEndsInv(s, step);
    case FlushArrives => WaitEndsInv(s, step);
    case WorkerRuns(w, succeeds) => WorkerInv(s, w, succeeds);
    case StoreMarks => StoreMarksInv(s);
    case StoreClaims(chosen, guid, lockTime, thresholdTime) => StoreClaimsInv(s, chosen, guid, lockTime, thresholdTime);
    case StoreReads(fs) => StoreReadsInv(s, fs);
    case StoreFlushes => StoreFlushesInv(s);
    case Tick(to) => TickInv(s, to);
    case InsertRow(id, row) => InsertInv(s, id, row);
    case PublishRow(id) => PublishInv(s, id);
    case OtherQueues(others) => OthersInv(s, others);
  }

  lemma NextInv(s: Sys, s': Sys)
    requires Inv(s) && QueueProtocol.Next(s, s')
    ensures Inv(s')
  {
    hide Inv, Enabled, Do;
    var step :| Enabled(s, step) && s' == Do(s, step);
    StepInv(s, step);
  }

  /** The invariant holds in every state of every run. */
  lemma {:induction false} RunInv(run: seq<Sys>, i: nat)
    requires IsRun(run) && i < |run|
    ensures Inv(run[i])
  {
    hide Inv, QueueProtocol.Next, Init;
    if i == 0 {
      InitInv(run[0]);
    } else {
      RunInv(run, i - 1);
      assert StepAt(run, i - 1);
      NextInv(run[i - 1], run[i]);
    }
  }
}
