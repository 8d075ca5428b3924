/**
 A run in which a silent sweep clears the saturation counters.

 One worker, two new jobs, aggressive sweeping:

 - a pulse fetches the first job, and another one the second; both wait at the worker, and the queue is saturated,
 - the next pulse finds it saturated, counts that, and makes the coordinator send itself a silent sweep,
 - the worker finishes the first job before that sweep is put into the mailbox,
 - the coordinator reads the success, which comes first, and is no longer saturated,
 - the silent sweep that it reads then clears both counters.

 A lemma here takes a run and extends it by a step or two.
 */
module QueueRuns {
  import opened Wrappers
  import opened JobTable
  import opened Messages
  import opened Coordinator
  import opened QueueProtocol

  const QUEUE := "default"
  const NEW_ROW := Row(QUEUE, "Run", "Job", New, 0, 0, 0, None, None, None, None, None)

  function LastOf(run: seq<Sys>): Sys
    requires run != []
  {
    run[|run| - 1]
  }

  lemma Extend(run: seq<Sys>, step: Step) returns (run': seq<Sys>)
    requires IsRun(run) && Enabled(LastOf(run), step)
    ensures run' == run + [Do(LastOf(run), step)] && IsRun(run')
  {
    hide Enabled, Do, Init;
    run' := run + [Do(LastOf(run), step)];
    forall i | 0 <= i < |run'| - 1
      ensures StepAt(run', i)
    {
      if i < |run| - 1 {
        assert StepAt(run, i);
        var before :| Enabled(run[i], before) && run[i + 1] == Do(run[i], before);
        assert run'[i] == run[i] && run'[i + 1] == run[i + 1];
      } else {
        assert run'[i] == LastOf(run) && run'[i + 1] == Do(LastOf(run), step);
      }
    }
  }

  /** Nothing is under way but what the one worker still has to do. */
  ghost predicate Quiet(s: Sys)
  {
    && Idle(s) && s.inbox == [] && s.store == [] && s.claiming.None? && s.reply.None?
    && |s.workers| == 1 && s.coord.workerCount == 1 && !s.coord.shuttingDown && s.queue == QUEUE
  }

  /** The coordinator takes the one message of its mailbox. */
  lemma Takes(run: seq<Sys>, s: Sys, m: Message) returns (run': seq<Sys>)
    requires IsRun(run) && LastOf(run) == s && Idle(s) && s.inbox == [m]
    ensures IsRun(run') && run < run'
    ensures var (c, es, _) := Handle(s.coord, m, s.clock); LastOf(run') == s.(inbox := [], coord := c, effects := es)
  {
    hide Handle;
    run' := Extend(run, Deliver);
    assert [m][..0] + [m][1..] == [];
  }

  /** The coordinator performs its one effect, which is not for a worker. */
  lemma Performs(run: seq<Sys>, s: Sys, e: Effect) returns (run': seq<Sys>)
    requires IsRun(run) && LastOf(run) == s && s.wait.NotWaiting? && s.effects == [e] && !e.ToWorker?
    ensures IsRun(run') && run < run' && LastOf(run') == DoPerform(s, 0)
    ensures [e][1..] == []
  {
    hide DoPerform;
    run' := Extend(run, Perform(0));
  }

  lemma Asks(run: seq<Sys>, s: Sys) returns (run': seq<Sys>)
    requires IsRun(run) && LastOf(run) == s && Quiet(s) && !Saturated(s.coord)
    ensures IsRun(run') && run' != []
    ensures LastOf(run') == s.(coord := s.coord.(saturationStartTime := None, saturationPulseCount := 0),
                               store := [GetJobs(1, s.asked + 1)], asked := s.asked + 1, wait := ForJobs)
  {
    hide IsRun, Enabled;
    run' := Pulses(run, s);
    run' := Takes(run', s.(inbox := [JobSweep]), JobSweep);
    var c := s.coord.(saturationStartTime := None, saturationPulseCount := 0);
    assert Handle(s.coord, JobSweep, s.clock) == (c, [AskJobs(1)], true);
    run' := Performs(run', s.(coord := c, effects := [AskJobs(1)]), AskJobs(1));
  }

  lemma Pulses(run: seq<Sys>, s: Sys) returns (run': seq<Sys>)
    requires IsRun(run) && LastOf(run) == s && s.inbox == []
    ensures IsRun(run') && run' != [] && LastOf(run') == s.(inbox := [JobSweep])
  {
    run' := Extend(run, Pulse);
    assert [] + [JobSweep] == [JobSweep];
  }

  function Claimed(t: Table, j: JobId, guid: Guid): Table
    requires j in t
  {
    t[j := t[j].(lockGuid := Some(guid), lockClaimTime := Some(0))]
  }

  lemma ClaimsOne(run: seq<Sys>, s: Sys, j: JobId, guid: Guid) returns (run': seq<Sys>)
    requires IsRun(run) && LastOf(run) == s && s.clock == 0
    requires s.store == [GetJobs(1, s.asked)] && s.claiming.None?
    requires Holding(s.table, guid) == {} && j in s.table
    requires IsTake(s.table, Eligible(s.table, {s.queue}, 0, 0 - s.lockTimeout), 1, {j})
    ensures IsRun(run') && run' != []
    ensures LastOf(run') == s.(table := Claimed(s.table, j, guid), claiming := Some(guid))
  {
    hide IsTake, Eligible;
    run' := Extend(run, StoreClaims({j}, guid, 0, 0));
    assert Claim(s.table, {j}, guid, 0) == Claimed(s.table, j, guid);
  }

  lemma Serves(run: seq<Sys>, s: Sys, j: JobId, guid: Guid) returns (run': seq<Sys>)
    requires IsRun(run) && LastOf(run) == s && s.clock == 0
    requires s.wait.ForJobs? && s.store == [GetJobs(1, s.asked)] && s.claiming.None? && s.reply.None?
    requires Holding(s.table, guid) == {} && j in s.table
    requires IsTake(s.table, Eligible(s.table, {s.queue}, 0, 0 - s.lockTimeout), 1, {j})
    ensures IsRun(run') && run' != []
    ensures LastOf(run') == s.(store := [], table := Claimed(s.table, j, guid),
                               reply := Some([Fetched(JobOf(j, s.table[j]), false)]))
  {
    hide IsTake, Eligible, IsRun;
    run' := ClaimsOne(run, s, j, guid);
    ReadsOne(s.table, j, guid);
    run' := Extend(run', StoreReads([Fetched(JobOf(j, s.table[j]), false)]));
    assert s.store[1..] == [];
  }

  lemma ReadsOne(t: Table, j: JobId, guid: Guid)
    requires Holding(t, guid) == {} && j in t
    ensures ReadsAs(Claimed(t, j, guid), guid, [Fetched(JobOf(j, t[j]), false)])
  {
    var fs := [Fetched(JobOf(j, t[j]), false)];
    ClaimedAreHeld(t, {j}, guid, 0);
    assert Claim(t, {j}, guid, 0) == Claimed(t, j, guid);
    assert fs[0].job.id == j;
  }

  lemma DispatchOne(job: Job)
    ensures DispatchCount([Fetched(job, false)]) == 1
    ensures DispatchEffects([Fetched(job, false)]) == [ToWorker(job), ToStore(MarkInProgress(job.id))]
  {
    var fs := [Fetched(job, false)];
    assert fs[..0] == [] && DispatchEffects(fs[..0]) == [] && DispatchCount(fs[..0]) == 0;
  }

  /** The mark in front is applied. */
  lemma Applies(run: seq<Sys>, s: Sys, m: Mark) returns (run': seq<Sys>)
    requires IsRun(run) && LastOf(run) == s && s.store == [MarkJob(m)] && s.claiming.None?
    ensures IsRun(run') && run < run'
    ensures LastOf(run') == s.(store := [], table := ApplyMark(s.table, m, s.clock), applied := s.applied + 1)
  {
    hide ApplyMark;
    run' := Extend(run, StoreMarks);
    assert [MarkJob(m)][1..] == [];
  }

  /** A mark goes to an empty storage mailbox and is applied. */
  lemma Marks(run: seq<Sys>, s: Sys, m: Mark) returns (run': seq<Sys>)
    requires IsRun(run) && LastOf(run) == s && s.wait.NotWaiting? && s.effects == [ToStore(m)]
    requires s.store == [] && s.claiming.None?
    ensures IsRun(run') && run < run'
    ensures LastOf(run') == s.(effects := [], sent := s.sent + [m], table := ApplyMark(s.table, m, s.clock),
                               applied := s.applied + 1)
  {
    hide IsRun, ApplyMark;
    run' := Performs(run, s, ToStore(m));
    var s1 := s.(effects := [], store := [MarkJob(m)], sent := s.sent + [m]);
    assert DoPerform(s, 0) == s1 by {
      assert [] + [MarkJob(m)] == [MarkJob(m)];
    }
    run' := Applies(run', s1, m);
  }

  lemma Tells(run: seq<Sys>, s: Sys, job: Job, rest: seq<Effect>) returns (run': seq<Sys>)
    requires IsRun(run) && LastOf(run) == s && s.wait.NotWaiting? && |s.workers| == 1
    requires s.effects == [ToWorker(job)] + rest
    ensures IsRun(run') && run < run'
    ensures LastOf(run') == s.(effects := rest, workers := [s.workers[0] + [ExecuteJobRequest(job)]],
                               dispatched := s.dispatched + [job.id])
  {
    run' := Extend(run, Perform(0));
    assert s.effects[1..] == rest;
    assert s.workers[0 := s.workers[0] + [ExecuteJobRequest(job)]] == [s.workers[0] + [ExecuteJobRequest(job)]];
  }

  lemma Resumes(run: seq<Sys>, s: Sys, job: Job) returns (run': seq<Sys>)
    requires IsRun(run) && LastOf(run) == s && s.wait.ForJobs? && s.reply == Some([Fetched(job, false)])
    ensures IsRun(run') && run < run'
    ensures LastOf(run') == s.(coord := s.coord.(pendingItems := s.coord.pendingItems + 1), wait := NotWaiting, reply := None,
                               effects := [ToWorker(job), ToStore(MarkInProgress(job.id))])
  {
    DispatchOne(job);
    hide DispatchEffects, DispatchCount;
    run' := Extend(run, ReplyArrives);
  }

  lemma Dispatches(run: seq<Sys>, s: Sys, job: Job) returns (run': seq<Sys>)
    requires IsRun(run) && LastOf(run) == s
    requires s.wait.ForJobs? && s.reply == Some([Fetched(job, false)]) && s.effects == [] && s.store == []
    requires |s.workers| == 1 && s.claiming.None?
    ensures IsRun(run') && run' != []
    ensures LastOf(run') == s.(coord := s.coord.(pendingItems := s.coord.pendingItems + 1), wait := NotWaiting, reply := None,
                               workers := [s.workers[0] + [ExecuteJobRequest(job)]],
                               dispatched := s.dispatched + [job.id], sent := s.sent + [MarkInProgress(job.id)],
                               table := ApplyMark(s.table, MarkInProgress(job.id), s.clock), applied := s.applied + 1)
  {
    hide IsRun, ApplyMark;
    run' := Resumes(run, s, job);
    var mark := ToStore(MarkInProgress(job.id));
    assert [ToWorker(job), mark] == [ToWorker(job)] + [mark];
    run' := Tells(run', LastOf(run'), job, [mark]);
    run' := Marks(run', LastOf(run'), MarkInProgress(job.id));
  }

  /** One fetch of one job, from pulse to mark. */
  lemma FetchesOne(run: seq<Sys>, s: Sys, j: JobId, guid: Guid) returns (run': seq<Sys>)
    requires IsRun(run) && LastOf(run) == s && Quiet(s) && !Saturated(s.coord) && s.clock == 0
    requires Holding(s.table, guid) == {} && j in s.table
    requires IsTake(s.table, Eligible(s.table, {s.queue}, 0, 0 - s.lockTimeout), 1, {j})
    ensures IsRun(run') && run' != []
    ensures var job := JobOf(j, s.table[j]);
            LastOf(run') ==
            s.(coord := s.coord.(saturationStartTime := None, saturationPulseCount := 0, pendingItems := s.coord.pendingItems + 1),
               asked := s.asked + 1, workers := [s.workers[0] + [ExecuteJobRequest(job)]],
               dispatched := s.dispatched + [j], sent := s.sent + [MarkInProgress(j)],
               table := ApplyMark(Claimed(s.table, j, guid), MarkInProgress(j), 0), applied := s.applied + 1)
  {
    hide IsRun, ApplyMark, Claimed, IsTake, Eligible;
    run' := Asks(run, s);
    run' := Serves(run', LastOf(run'), j, guid);
    run' := Dispatches(run', LastOf(run'), JobOf(j, s.table[j]));
  }

  // ----- the run -----

  const TWO_NEW: Table := map[0 := NEW_ROW, 1 := NEW_ROW]
  const STARTED_ROW := NEW_ROW.(status := InProgress, lastAttempt := Some(0), lockGuid := Some(1))
  const ONE_NEW: Table := map[0 := STARTED_ROW, 1 := NEW_ROW]

  /** One worker, aggressive sweeping, and two new jobs. */
  function Start(): Sys
  {
    Sys(QUEUE, 0, Coord(false, 1, 0, 0, None, 0, 0, true), [], NotWaiting, 0, None, [], [[]], [], None, TWO_NEW, 0,
        [], [], 0, false, false, false)
  }

  lemma FirstIsTaken()
    ensures Holding(TWO_NEW, 1) == {}
    ensures IsTake(TWO_NEW, Eligible(TWO_NEW, {QUEUE}, 0, 0), 1, {0})
    ensures ApplyMark(Claimed(TWO_NEW, 0, 1), MarkInProgress(0), 0) == ONE_NEW
  {
    assert Eligible(TWO_NEW, {QUEUE}, 0, 0) == {0, 1};
    assert |{0, 1}| == 2;
  }

  lemma SecondIsTaken()
    ensures Holding(ONE_NEW, 2) == {}
    ensures IsTake(ONE_NEW, Eligible(ONE_NEW, {QUEUE}, 0, 0), 1, {1})
  {
    assert Eligible(ONE_NEW, {QUEUE}, 0, 0) == {1};
  }

  lemma Saturates() returns (run: seq<Sys>, s: Sys)
    ensures IsRun(run) && run != [] && LastOf(run) == s && Quiet(s)
    ensures s.coord == Coord(false, 1, 0, 2, None, 0, 0, true)
    ensures |s.workers[0]| == 2 && s.workers[0][0].ExecuteJobRequest?
  {
    hide IsTake, Eligible, ApplyMark, Claimed;
    run := [Start()];
    FirstIsTaken();
    run := FetchesOne(run, Start(), 0, 1);
    s := LastOf(run);
    SecondIsTaken();
    run := FetchesOne(run, s, 1, 2);
    s := LastOf(run);
  }

  /** The worker finishes the request in front. */
  lemma Finishes(run: seq<Sys>, s: Sys, job: Job) returns (run': seq<Sys>)
    requires IsRun(run) && LastOf(run) == s && |s.workers| == 1 && s.workers[0] != [] && s.workers[0][0] == ExecuteJobRequest(job)
    requires s.inbox == []
    ensures IsRun(run') && run < run'
    ensures LastOf(run') == s.(workers := [s.workers[0][1..]], inbox := [JobSucceeded(job)])
  {
    run' := Extend(run, WorkerRuns(0, true));
    assert s.workers[0 := s.workers[0][1..]] == [s.workers[0][1..]];
    assert [] + [JobSucceeded(job)] == [JobSucceeded(job)];
  }

  /** From a saturated queue: a pulse is counted, a job ends, and the silent sweep is left to read. */
  lemma Drains(run: seq<Sys>, s: Sys) returns (run': seq<Sys>, s': Sys)
    requires IsRun(run) && LastOf(run) == s && Quiet(s) && s.coord == Coord(false, 1, 0, 2, None, 0, 0, true)
    requires s.workers[0] != [] && s.workers[0][0].ExecuteJobRequest?
    ensures IsRun(run') && run' != [] && LastOf(run') == s'
    ensures Idle(s') && s'.inbox == [SilentRetrySweep]
    ensures s'.coord == Coord(false, 1, 0, 1, Some(s.clock), 1, 1, true)
  {
    hide IsRun, ApplyMark;
    var job := s.workers[0][0].job;
    var c := Coord(false, 1, 0, 2, Some(s.clock), 1, 1, true);
    run' := Pulses(run, s);
    assert Handle(s.coord, JobSweep, s.clock) == (c, [ToSelf], true);
    run' := Takes(run', s.(inbox := [JobSweep]), JobSweep);
    run' := Finishes(run', s.(coord := c, effects := [ToSelf]), job);
    s' := s.(coord := c, effects := [ToSelf], workers := [s.workers[0][1..]], inbox := [JobSucceeded(job)]);
    run' := Performs(run', s', ToSelf);
    run', s' := Hears(run', s'.(effects := [], inbox := [JobSucceeded(job)] + [SilentRetrySweep]), job);
  }

  lemma Reads(s: Sys, job: Job)
    requires s.inbox == [JobSucceeded(job)] + [SilentRetrySweep]
    ensures DoDeliver(s) == s.(inbox := [SilentRetrySweep], coord := s.coord.(pendingItems := s.coord.pendingItems - 1),
                               effects := [ToStore(MarkSuccess(job.id))])
  {
    assert s.inbox[0] == JobSucceeded(job) && s.inbox[..0] + s.inbox[1..] == [SilentRetrySweep];
    assert NextIndex(s.inbox) == 0;
  }

  /** The coordinator reads a success, and the mark is applied. */
  lemma Hears(run: seq<Sys>, s: Sys, job: Job) returns (run': seq<Sys>, s': Sys)
    requires IsRun(run) && run != [] && LastOf(run) == s && Idle(s) && s.store == [] && s.claiming.None?
    requires s.inbox == [JobSucceeded(job)] + [SilentRetrySweep]
    ensures IsRun(run') && run' != [] && LastOf(run') == s'
    ensures Idle(s') && s'.inbox == [SilentRetrySweep]
    ensures s'.coord == s.coord.(pendingItems := s.coord.pendingItems - 1)
  {
    hide IsRun, ApplyMark, DoDeliver;
    Reads(s, job);
    run' := Extend(run, Deliver);
    run' := Marks(run', DoDeliver(s), MarkSuccess(job.id));
    s' := LastOf(run');
  }

  /**
   A silent sweep can clear the saturation counters: this run saturates, counts a saturated pulse, drains,
   and then takes the silent sweep that the saturated pulse left behind.
   */
  lemma SilentSweepClears() returns (run: seq<Sys>)
    ensures IsRun(run) && |run| >= 2
    ensures var s, s' := run[|run| - 2], run[|run| - 1];
            && Idle(s) && s.inbox == [SilentRetrySweep] && !s.coord.shuttingDown && !Saturated(s.coord)
            && s.coord.saturationPulseCount == 1 && s.coord.saturationStartTime.Some?
            && s' == Do(s, Deliver)
            && s'.coord.saturationPulseCount == 0 && s'.coord.saturationStartTime.None?
  {
    hide IsRun, Do, Enabled;
    var s;
    run, s := Saturates();
    run, s := Drains(run, s);
    run := ReadsSilent(run, s);
  }

  lemma ReadsSilent(run: seq<Sys>, s: Sys) returns (run': seq<Sys>)
    requires IsRun(run) && run != [] && LastOf(run) == s && Idle(s) && s.inbox == [SilentRetrySweep]
    requires !s.coord.shuttingDown && !Saturated(s.coord)
    ensures IsRun(run') && |run'| >= 2 && run'[|run'| - 2] == s && Enabled(s, Deliver)
    ensures run'[|run'| - 1] == Do(s, Deliver)
    ensures Do(s, Deliver).coord == s.coord.(saturationStartTime := None, saturationPulseCount := 0)
  {
    run' := Extend(run, Deliver);
  }
}
