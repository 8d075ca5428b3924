/** What the coordinator decides, over all runs: to retry or to fail, to ask for jobs, and whom to tell first. */
module QueueDecisions {
  import opened Wrappers
  import opened JobTable
  import opened Messages
  import opened Coordinator
  import opened MarkHistory
  import opened Mailboxes
  import opened QueueProtocol
  import opened QueueInvariant
  import opened QueueSteps
  import opened QueueMarks
  import QueueTheorems

  // ----- the row of a job under way -----

  ghost predicate RetriesApplied(s: Sys, j: JobId)
  {
    Retries(AppliedMarks(s), j) == Retries(Plan(s), j)
  }

  /** The row of a job that is under way, or about to be, already counts all its retries. */
  ghost predicate Settled(s: Sys)
  {
    && (forall j :: Last(Plan(s), j) == Some(MarkInProgress(j)) ==> RetriesApplied(s, j))
    && (s.reply.Some? ==> forall x :: 0 <= x < |s.reply.value| ==> RetriesApplied(s, s.reply.value[x].job.id))
  }

  ghost predicate Started(fs: seq<Fetched>, j: JobId)
  {
    exists x :: 0 <= x < |fs| && fs[x].job.id == j
  }

  /** A dispatch plans no retries, and nothing about jobs it was not given. */
  lemma {:induction false} DispatchMarks(ms: seq<Mark>, fs: seq<Fetched>, j: JobId)
    ensures var ms' := ms + MarksOf(DispatchEffects(fs));
            && Retries(ms', j) == Retries(ms, j)
            && (!Started(fs, j) ==> Last(ms', j) == Last(ms, j))
  {
    if fs == [] {
      assert ms + [] == ms;
    } else {
      var front, last := fs[..|fs| - 1], fs[|fs| - 1];
      DispatchMarks(ms, front, j);
      EffectsConcat(DispatchEffects(front), EffectsFor(last), None);
      EffectsOfOne(last, None);
      var before := ms + MarksOf(DispatchEffects(front));
      assert ms + (MarksOf(DispatchEffects(front)) + [MarkFor(last)]) == before + [MarkFor(last)];
      Snoc(before, MarkFor(last), j);
      assert Started(front, j) ==> Started(fs, j);
    }
  }

  lemma RetriesStayApplied(s: Sys, s': Sys, j: JobId)
    requires RetriesApplied(s, j) && Retries(Plan(s'), j) == Retries(Plan(s), j)
    requires s.applied <= s'.applied <= |s'.sent| && s.sent <= s'.sent
    ensures RetriesApplied(s', j)
  {
    var a, a', p' := AppliedMarks(s), AppliedMarks(s'), Plan(s');
    assert a <= a' && a' <= p';
    assert a'[..|a|] == a && p'[..|a'|] == a';
    RetriesGrow(a', |a|, j);
    RetriesGrow(p', |a'|, j);
  }

  lemma HistoryGrows(s: Sys, step: Step)
    requires Enabled(s, step) && s.applied <= |s.sent| && (step.StoreMarks? ==> s.applied < |s.sent|)
    ensures var s' := Do(s, step); s.applied <= s'.applied <= |s'.sent| && s.sent <= s'.sent
  {
    hide Plan, IsTake, ReadsAs, ApplyMark, Claim, Handle, OnFetched, NextIndex, WorkerReply, Eligible, Holding, DoPerform;
    if step.Perform? {
      PerformGrows(s, step.worker);
    }
  }

  lemma PerformGrows(s: Sys, w: nat)
    requires s.effects != [] && (s.effects[0].ToWorker? ==> w < |s.workers|)
    ensures DoPerform(s, w).applied == s.applied && s.sent <= DoPerform(s, w).sent
  {
  }

  lemma MarkIsSent(s: Sys)
    requires Store(s) && Enabled(s, StoreMarks)
    ensures s.applied < |s.sent|
  {
    StoreTail(s.store);
  }

  lemma SettledOnDeliver(s: Sys)
    requires Inv(s) && Settled(s) && Enabled(s, Deliver)
    ensures Settled(DoDeliver(s))
  {
    hide Inv, NewMarks;
    var s', added := DoDeliver(s), NewMarks(s, Deliver);
    InvParts(s);
    PlanOnDeliver(s);
    HistoryGrows(s, Deliver);
    DeliverMarks(s);
    forall j | Last(Plan(s'), j) == Some(MarkInProgress(j))
      ensures RetriesApplied(s', j)
    {
      if added == [] {
        assert Plan(s) + [] == Plan(s);
      } else {
        assert added == [added[0]];
        Snoc(Plan(s), added[0], j);
      }
      RetriesStayApplied(s, s', j);
    }
  }

  lemma DeliverMarks(s: Sys)
    requires Enabled(s, Deliver)
    ensures |NewMarks(s, Deliver)| <= 1 && (NewMarks(s, Deliver) != [] ==> !NewMarks(s, Deliver)[0].MarkInProgress?)
  {
  }

  lemma InvParts(s: Sys)
    requires Inv(s)
    ensures Shape(s) && Store(s) && s.applied <= |s.sent|
    ensures s.wait.NotWaiting? ==> s.reply.None?
    ensures s.wait.ForJobs? ==> s.effects == []
  {
  }

  lemma SettledOnReply(s: Sys)
    requires Inv(s) && Settled(s) && Enabled(s, ReplyArrives)
    ensures Settled(Do(s, ReplyArrives))
  {
    hide Inv, DispatchCount, DispatchEffects;
    var s', fs := Do(s, ReplyArrives), s.reply.value;
    InvParts(s);
    StepPlan(s, ReplyArrives);
    HistoryGrows(s, ReplyArrives);
    forall j | Last(Plan(s'), j) == Some(MarkInProgress(j))
      ensures RetriesApplied(s', j)
    {
      DispatchMarks(Plan(s), fs, j);
      if Started(fs, j) {
        var x :| 0 <= x < |fs| && fs[x].job.id == j;
        assert RetriesApplied(s, fs[x].job.id);
      }
      RetriesStayApplied(s, s', j);
    }
  }

  lemma SettledOnRead(s: Sys, fs: seq<Fetched>)
    requires Inv(s) && Settled(s) && Enabled(s, StoreReads(fs))
    ensures Settled(Do(s, StoreReads(fs)))
  {
    hide Inv, ReadsAs;
    InvParts(s);
    var s' := Do(s, StoreReads(fs));
    assert Plan(s') == Plan(s) && AppliedMarks(s') == AppliedMarks(s);
    if Live(s) {
      ReadsPlan(s, fs);
    }
    assert forall j :: RetriesApplied(s, j) ==> RetriesApplied(s', j);
  }

  lemma SettledOtherwise(s: Sys, step: Step)
    requires Inv(s) && Settled(s) && Enabled(s, step) && !step.Deliver? && !step.ReplyArrives? && !step.StoreReads?
    ensures Settled(Do(s, step))
  {
    hide Inv, Plan, AppliedMarks, RetriesApplied, NewMarks, Last;
    InvParts(s);
    if step.StoreMarks? {
      MarkIsSent(s);
    }
    HistoryGrows(s, step);
    StepPlan(s, step);
    OtherSteps(s, step);
    forall j | RetriesApplied(s, j)
      ensures RetriesApplied(Do(s, step), j)
    {
      RetriesStayApplied(s, Do(s, step), j);
    }
  }

  lemma OtherSteps(s: Sys, step: Step)
    requires Enabled(s, step) && !step.Deliver? && !step.ReplyArrives? && !step.StoreReads?
    ensures NewMarks(s, step) == [] && Plan(s) + [] == Plan(s)
    ensures Do(s, step).reply.None? || Do(s, step).reply == s.reply
  {
    hide Plan, IsTake, ReadsAs, ApplyMark, Claim;
  }

  lemma {:induction false} RunSettled(run: seq<Sys>, i: nat)
    requires IsRun(run) && i < |run|
    ensures Settled(run[i])
  {
    hide Inv, Enabled, Do, Settled;
    if i == 0 {
      SettledAtFirst(run[0]);
    } else {
      RunSettled(run, i - 1);
      var step := StepOf(run, i - 1);
      SettledStep(run[i - 1], step);
    }
  }

  lemma SettledAtFirst(s: Sys)
    requires Init(s)
    ensures Settled(s)
  {
    NothingPlanned(s);
  }

  lemma SettledStep(s: Sys, step: Step)
    requires Inv(s) && Settled(s) && Enabled(s, step)
    ensures Settled(Do(s, step))
  {
    hide Inv, Settled;
    match step
    case Deliver => SettledOnDeliver(s);
    case ReplyArrives => SettledOnReply(s);
    case StoreReads(fs) => SettledOnRead(s, fs);
    case _ => SettledOtherwise(s, step);
  }

  /** A step of a run, from a state with the invariant. */
  lemma StepOf(run: seq<Sys>, i: nat) returns (step: Step)
    requires IsRun(run) && i < |run| - 1
    ensures Inv(run[i]) && Enabled(run[i], step) && run[i + 1] == Do(run[i], step)
  {
    hide Enabled, Do, Init, Inv;
    RunInv(run, i);
    assert StepAt(run, i);
    step :| Enabled(run[i], step) && run[i + 1] == Do(run[i], step);
  }

  // ----- retry or fail -----

  /** The coordinator takes the next message of its mailbox, which is `m`. */
  ghost predicate TakesMessage(run: seq<Sys>, i: nat, m: Message)
  {
    && i < |run| - 1 && Enabled(run[i], Deliver) && run[i + 1] == Do(run[i], Deliver)
    && run[i].inbox[NextIndex(run[i].inbox)] == m
  }

  /**
   A failed job is put back exactly if its row's retry count is below the row's maximum; otherwise it is failed
   for good.  All retries of the job have been applied by then, so that count stands.
   */
  lemma FailureIsDecided(run: seq<Sys>, i: nat, job: Job)
    requires IsRun(run) && TakesMessage(run, i, JobFailed(job))
    ensures var s, s' := run[i], run[i + 1];
            && Mine(s, job.id) && Mine(s', job.id) && s'.table == s.table
            && s'.effects == [ToStore(if s.table[job.id].retryCount < s.table[job.id].maxRetries
                                      then MarkRetry(job.id) else MarkFailed(job.id))]
            && Retries(Plan(s), job.id) == Retries(AppliedMarks(s), job.id)
            && Last(Plan(s), job.id) == Some(MarkInProgress(job.id))
  {
    hide Inv, IsRun;
    var s := run[i];
    RunInv(run, i);
    RunSettled(run, i);
    assert JobFailed(job) in s.inbox;
    ResultFollowsStart(s, job);
    FailedJobData(s, job);
  }

  lemma FailedJobData(s: Sys, job: Job)
    requires Inv(s) && JobFailed(job) in s.inbox
    ensures JobData(s, job)
  {
    assert UnderWay(s, job);
  }

  /** A step leaves a row of the queue its maximum, and takes no retry back. */
  lemma StepKeepsRow(s: Sys, step: Step, j: JobId)
    requires Enabled(s, step) && Mine(s, j)
    ensures var s' := Do(s, step);
            Mine(s', j) && s'.table[j].maxRetries == s.table[j].maxRetries && s'.table[j].retryCount >= s.table[j].retryCount
  {
    hide IsTake, ReadsAs, Handle, OnFetched, NextIndex, WorkerReply, Eligible, Holding, DoPerform;
    if step.Perform? {
      PerformKeepsTable(s, step.worker);
    }
  }

  lemma PerformKeepsTable(s: Sys, w: nat)
    requires s.effects != [] && (s.effects[0].ToWorker? ==> w < |s.workers|)
    ensures DoPerform(s, w).table == s.table && DoPerform(s, w).queue == s.queue
  {
    match s.effects[0]
    case BroadcastShutDown =>
    case _ =>
  }

  /** A failure mark at `n` of the plan: the dispatch found no type, or the row has no retries left. */
  ghost predicate Spent(run: seq<Sys>, i: nat, n: nat)
    requires i < |run| && n < |Plan(run[i])|
  {
    var m := Plan(run[i])[n];
    m.MarkFailed? ==>
      || (exists k :: 0 <= k < i && |Plan(run[k])| <= n < |Plan(run[k + 1])| && MissingType(run[k], m.id))
      || (Mine(run[i], m.id) && run[i].table[m.id].retryCount >= run[i].table[m.id].maxRetries)
  }

  lemma {:induction false} AllSpent(run: seq<Sys>, i: nat, n: nat)
    requires IsRun(run) && i < |run| && n < |Plan(run[i])|
    ensures Spent(run, i, n)
  {
    hide Inv, Plan, NewMarks, Enabled, Do, Init, MissingType, StepAt;
    if i == 0 {
      NothingPlanned(run[0]);
    } else {
      var before, after := Plan(run[i - 1]), Plan(run[i]);
      var step := PlanGrows(run, i - 1);
      if n < |before| {
        AllSpent(run, i - 1, n);
        assert after[n] == before[n];
        if Mine(run[i - 1], after[n].id) {
          var taken := StepOf(run, i - 1);
          StepKeepsRow(run[i - 1], taken, after[n].id);
        }
      } else if after[n].MarkFailed? {
        assert |before| <= n < |after|;
        NewIsSpent(run, i, n);
      }
    }
  }

  lemma NewIsSpent(run: seq<Sys>, i: nat, n: nat)
    requires IsRun(run) && 0 < i < |run| && |Plan(run[i - 1])| <= n < |Plan(run[i])| && Plan(run[i])[n].MarkFailed?
    ensures var id := Plan(run[i])[n].id;
            || MissingType(run[i - 1], id)
            || (Mine(run[i], id) && run[i].table[id].retryCount >= run[i].table[id].maxRetries)
  {
    hide Inv, Init, Plan, MissingType, Enabled, Do, NewMarks;
    var s, before := run[i - 1], Plan(run[i - 1]);
    var step := StepOf(run, i - 1);
    InvParts(s);
    StepPlan(s, step);
    NewIsExplained(s, step, n - |before|);
    if step.Deliver? && !MissingType(s, Plan(run[i])[n].id) {
      DeliveredIsSpent(run, i - 1);
    }
  }

  lemma DeliveredIsSpent(run: seq<Sys>, i: nat)
    requires IsRun(run) && i < |run| - 1 && Shape(run[i]) && Enabled(run[i], Deliver) && run[i + 1] == Do(run[i], Deliver)
    requires NewMarks(run[i], Deliver) != [] && NewMarks(run[i], Deliver)[0].MarkFailed?
    ensures var id := NewMarks(run[i], Deliver)[0].id;
            Mine(run[i + 1], id) && run[i + 1].table[id].retryCount >= run[i + 1].table[id].maxRetries
  {
    hide IsRun, Shape, Handle, NextIndex;
    FailureTaken(run[i]);
    FailureIsDecided(run, i, QueueSteps.Next(run[i]).job);
    DecisionIsMark(run[i]);
  }

  /** The one failure mark that a delivery plans is for a failed job. */
  lemma FailureTaken(s: Sys)
    requires Shape(s) && Enabled(s, Deliver)
    ensures NewMarks(s, Deliver) != [] && NewMarks(s, Deliver)[0].MarkFailed? ==> QueueSteps.Next(s).JobFailed?
  {
  }

  lemma DecisionIsMark(s: Sys)
    requires Enabled(s, Deliver) && QueueSteps.Next(s).JobFailed?
    ensures DoDeliver(s).effects == [ToStore(NewMarks(s, Deliver)[0])]
    ensures NewMarks(s, Deliver)[0].id == QueueSteps.Next(s).job.id
  {
  }

  /**
   A job that is failed although its type was there has used its whole budget: its row's count is the maximum,
   or zero where the maximum is negative, and stays so.
   */
  lemma FailedUsedItsBudget(run: seq<Sys>, i: nat, n: nat)
    requires IsRun(run) && i < |run| && n < |run[i].sent| && run[i].sent[n].MarkFailed?
    ensures var id := run[i].sent[n].id;
            || (exists k :: 0 <= k < i && |Plan(run[k])| <= n < |Plan(run[k + 1])| && MissingType(run[k], id))
            || (Mine(run[i], id) && run[i].table[id].retryCount ==
                  if run[i].table[id].maxRetries < 0 then 0 else run[i].table[id].maxRetries)
  {
    hide Inv, MissingType;
    var s := run[i];
    assert Plan(s)[n] == s.sent[n];
    AllSpent(run, i, n);
    if Mine(s, s.sent[n].id) {
      QueueTheorems.RetryBudget(run, i, s.sent[n].id);
    }
  }

  // ----- to ask or not -----

  /**
   A sweep asks for jobs, as many as there are workers, exactly if fewer than twice that many are under way: waiting
   or running at a worker, or with a result not read yet.  Otherwise only pulses are counted.
   */
  lemma SweepAsksExactly(run: seq<Sys>, i: nat, m: Message)
    requires IsRun(run) && TakesMessage(run, i, m) && (m == JobSweep || m == SilentRetrySweep)
    ensures var c, c' := run[i].coord, run[i + 1].coord;
            var underWay := CarriedIn(run[i].inbox, None) + CarriedBy(run[i].workers, None);
            if c.shuttingDown then c' == c && run[i + 1].effects == []
            else if underWay < 2 * c.workerCount then
              run[i + 1].effects == [AskJobs(c.workerCount)] && c' == c.(saturationStartTime := None, saturationPulseCount := 0)
            else
              && run[i + 1].effects == (if c.aggressiveSweep then [ToSelf] else [])
              && (m == SilentRetrySweep ==> c' == c)
              && (m == JobSweep ==>
                    && c'.saturationPulseCount == c.saturationPulseCount + 1
                    && c'.queueLifeSaturationPulseCount == c.queueLifeSaturationPulseCount + 1
                    && c'.saturationStartTime == Some(if c.saturationStartTime.Some? then c.saturationStartTime.value else run[i].clock)
                    && c' == c.(saturationStartTime := c'.saturationStartTime, saturationPulseCount := c'.saturationPulseCount,
                                queueLifeSaturationPulseCount := c'.queueLifeSaturationPulseCount))
  {
    hide IsRun;
    QueueTheorems.PendingIsExact(run, i);
  }

  // ----- the worker first -----

  /** Of any rest of the effects: no more jobs for workers than start marks. */
  ghost predicate MarksFollow(es: seq<Effect>)
  {
    && (forall j :: Told(es, Some(j)) <= Runs(MarksOf(es), j))
    && (es != [] ==> MarksFollow(es[1..]))
  }

  lemma {:induction false} RunsConcat(a: seq<Mark>, b: seq<Mark>, j: JobId)
    ensures Runs(a + b, j) == Runs(a, j) + Runs(b, j)
  {
    if b == [] {
      assert a + b == a;
    } else {
      RunsConcat(a, b[..|b| - 1], j);
      assert (a + b)[..|a| + |b| - 1] == a + b[..|b| - 1];
    }
  }

  lemma {:induction false} FollowConcat(a: seq<Effect>, b: seq<Effect>)
    requires MarksFollow(a) && MarksFollow(b)
    ensures MarksFollow(a + b)
  {
    if a == [] {
      assert a + b == b;
    } else {
      FollowConcat(a[1..], b);
      Tail(a, b);
      forall j
        ensures Told(a + b, Some(j)) <= Runs(MarksOf(a + b), j)
      {
        EffectsConcat(a, b, Some(j));
        RunsConcat(MarksOf(a), MarksOf(b), j);
      }
    }
  }

  lemma OneMark(m: Mark, j: JobId)
    ensures MarksOf([ToStore(m)]) == [m] && Told([ToStore(m)], Some(j)) == 0
    ensures Runs([m], j) == if m == MarkInProgress(j) then 1 else 0
  {
    assert [ToStore(m)][1..] == [] && [m][..0] == [];
  }

  lemma MarkAlone(m: Mark)
    ensures MarksFollow([ToStore(m)])
  {
    forall j
      ensures Told([ToStore(m)], Some(j)) <= Runs(MarksOf([ToStore(m)]), j)
    {
      OneMark(m, j);
    }
    assert [ToStore(m)][1..] == [] && MarksFollow([]);
  }

  lemma PairTold(f: Fetched, j: JobId)
    ensures Told(EffectsFor(f), Some(j)) <= Runs(MarksOf(EffectsFor(f)), j)
  {
    hide MarksOf, Told, Runs, EffectsFor;
    EffectsOfOne(f, Some(j));
    OneMark(MarkFor(f), j);
  }

  lemma RestIsMark(f: Fetched)
    ensures EffectsFor(f) != [] && (EffectsFor(f)[1..] == if f.typeMissing then [] else [ToStore(MarkFor(f))])
  {
  }

  lemma PairFollows(f: Fetched)
    ensures MarksFollow(EffectsFor(f))
  {
    hide MarksOf, Told, Runs, EffectsFor, MarkFor;
    RestIsMark(f);
    MarkAlone(MarkFor(f));
    NoneFollow();
    forall j
      ensures Told(EffectsFor(f), Some(j)) <= Runs(MarksOf(EffectsFor(f)), j)
    {
      PairTold(f, j);
    }
  }

  lemma NoneFollow()
    ensures MarksFollow([])
  {
  }

  lemma {:induction false} DispatchFollows(fs: seq<Fetched>)
    ensures MarksFollow(DispatchEffects(fs))
  {
    if fs != [] {
      DispatchFollows(fs[..|fs| - 1]);
      PairFollows(fs[|fs| - 1]);
      FollowConcat(DispatchEffects(fs[..|fs| - 1]), EffectsFor(fs[|fs| - 1]));
    }
  }

  lemma {:induction false} NoneToTell(es: seq<Effect>)
    requires forall e :: e in es ==> !e.ToWorker?
    ensures MarksFollow(es)
  {
    if es != [] {
      NoneToTell(es[1..]);
    }
    forall j
      ensures Told(es, Some(j)) == 0
    {
      QueueTheorems.NoneTold(es, Some(j));
    }
  }

  lemma {:induction false} RunFollows(run: seq<Sys>, i: nat)
    requires IsRun(run) && i < |run|
    ensures MarksFollow(run[i].effects)
  {
    hide Inv, Enabled, Do, MarksFollow;
    if i == 0 {
      NoneToTell(run[0].effects);
    } else {
      RunFollows(run, i - 1);
      var step := StepOf(run, i - 1);
      StepFollows(run[i - 1], step);
    }
  }

  lemma StepFollows(s: Sys, step: Step)
    requires Inv(s) && Enabled(s, step) && MarksFollow(s.effects)
    ensures MarksFollow(Do(s, step).effects)
  {
    hide Inv, IsTake, ReadsAs, ApplyMark, Claim, DispatchEffects, DispatchCount;
    if step.Deliver? {
      DeliverTellsNone(s);
      NoneToTell(DoDeliver(s).effects);
    } else if step.ReplyArrives? {
      DispatchFollows(s.reply.value);
    } else if step.AskTimesOut? {
      NoneToTell([]);
    }
  }

  lemma DeliverTellsNone(s: Sys)
    requires Enabled(s, Deliver)
    ensures forall e :: e in DoDeliver(s).effects ==> !e.ToWorker?
  {
  }

  /** A worker has been told of every attempt before the store hears of its start. */
  lemma WorkerIsToldFirst(run: seq<Sys>, i: nat, j: JobId)
    requires IsRun(run) && i < |run|
    ensures Runs(run[i].sent, j) <= Times(run[i].dispatched, j)
  {
    var s := run[i];
    RunInv(run, i);
    RunFollows(run, i);
    assert Attempts(s, j) == Runs(Plan(s), j);
    RunsConcat(s.sent, MarksOf(s.effects), j);
  }
}
