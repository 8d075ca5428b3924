/** Where the marks of a queue come from: results of attempts, and dispatches. */
module QueueMarks {
  import opened Wrappers
  import opened JobTable
  import opened Messages
  import opened Coordinator
  import opened MarkHistory
  import opened Mailboxes
  import opened QueueProtocol
  import opened QueueInvariant
  import opened QueueSteps

  /** The marks that a step adds to the plan. */
  function NewMarks(s: Sys, step: Step): seq<Mark>
    requires Enabled(s, step)
  {
    if step.Deliver? && (QueueSteps.Next(s).JobSucceeded? || QueueSteps.Next(s).JobFailed?) then [MarkOfResult(QueueSteps.Next(s))]
    else if step.ReplyArrives? then MarksOf(DispatchEffects(s.reply.value))
    else []
  }

  lemma MarksOfFirst(es: seq<Effect>)
    requires es != []
    ensures MarksOf(es) == (if es[0].ToStore? then [es[0].mark] else []) + MarksOf(es[1..])
  {
  }

  lemma PlanOnPerform(s: Sys, w: nat)
    requires Enabled(s, Perform(w))
    ensures Plan(DoPerform(s, w)) == Plan(s)
  {
    hide MarksOf;
    MarksOfFirst(s.effects);
    var rest := MarksOf(s.effects[1..]);
    if s.effects[0].ToStore? {
      assert s.sent + ([s.effects[0].mark] + rest) == s.sent + [s.effects[0].mark] + rest;
    } else {
      assert [] + rest == rest;
    }
  }

  lemma PlanOnDeliver(s: Sys)
    requires Shape(s) && Enabled(s, Deliver)
    ensures Plan(DoDeliver(s)) == Plan(s) + NewMarks(s, Deliver)
  {
    var m := QueueSteps.Next(s);
    var (_, es, _) := Handle(s.coord, m, s.clock);
    assert InboxMessage(m);
    assert MarksOf(s.effects) == [] && s.sent + [] == s.sent;
    if |es| > 0 {
      assert |es| > 1 ==> es[1..] == [TellRequester] && es[1..][1..] == [];
      assert |es| == 1 ==> es[1..] == [];
    }
    assert MarksOf(es) == NewMarks(s, Deliver);
  }

  /** The plan only grows. */
  lemma StepPlan(s: Sys, step: Step)
    requires Shape(s) && Enabled(s, step)
    ensures Plan(Do(s, step)) == Plan(s) + NewMarks(s, step)
  {
    match step
    case Perform(w) => PlanOnPerform(s, w);
    case Deliver => PlanOnDeliver(s);
    case ReplyArrives => assert s.effects == [];
    case AskTimesOut => assert s.effects == [];
    case _ =>
  }

  /** A result in the mailbox: the attempt it ends is the latest thing planned about its job. */
  lemma ResultsFollowStarts(run: seq<Sys>, i: nat, job: Job)
    requires IsRun(run) && i < |run| && (JobSucceeded(job) in run[i].inbox || JobFailed(job) in run[i].inbox)
    ensures Last(Plan(run[i]), job.id) == Some(MarkInProgress(job.id))
  {
    RunInv(run, i);
    ResultFollowsStart(run[i], job);
  }

  lemma ResultFollowsStart(s: Sys, job: Job)
    requires Inv(s) && (JobSucceeded(job) in s.inbox || JobFailed(job) in s.inbox)
    ensures Last(Plan(s), job.id) == Some(MarkInProgress(job.id))
  {
    hide Shape, Data, Rows, Store, Claims, Replies, Pressure, Shutdown;
    var k :| 0 <= k < |s.inbox| && (s.inbox[k] == JobSucceeded(job) || s.inbox[k] == JobFailed(job));
    CarriedMember(s.inbox, k);
    assert Flight(s, Some(job.id)) == One(Running(Plan(s), job.id));
    LastIsMember(Plan(s), job.id);
  }

  /** The coordinator is about to dispatch a fetched job whose type is missing. */
  ghost predicate MissingType(s: Sys, id: JobId)
  {
    && s.wait.ForJobs? && s.reply.Some?
    && exists x :: 0 <= x < |s.reply.value| && s.reply.value[x].typeMissing && s.reply.value[x].job.id == id
  }

  lemma {:induction false} DispatchFails(fs: seq<Fetched>, n: nat)
    requires n < |MarksOf(DispatchEffects(fs))| && MarksOf(DispatchEffects(fs))[n].MarkFailed?
    ensures exists x :: 0 <= x < |fs| && fs[x].typeMissing && fs[x].job.id == MarksOf(DispatchEffects(fs))[n].id
  {
    if fs != [] {
      var last, front := fs[|fs| - 1], fs[..|fs| - 1];
      EffectsOfOne(last, None);
      EffectsConcat(DispatchEffects(front), EffectsFor(last), None);
      if n < |MarksOf(DispatchEffects(front))| {
        DispatchFails(front, n);
      }
    }
  }

  /** The failure mark at `n` of the plan ends an attempt, or was dispatched at an earlier step for want of a type. */
  ghost predicate Explained(run: seq<Sys>, i: nat, n: nat)
    requires i < |run| && n < |Plan(run[i])|
  {
    var m := Plan(run[i])[n];
    m.MarkFailed? ==>
      || Last(Plan(run[i])[..n], m.id) == Some(MarkInProgress(m.id))
      || exists k :: 0 <= k < i && |Plan(run[k])| <= n < |Plan(run[k + 1])| && MissingType(run[k], m.id)
  }

  lemma PlanGrows(run: seq<Sys>, i: nat) returns (step: Step)
    requires IsRun(run) && i < |run| - 1
    ensures Inv(run[i]) && Enabled(run[i], step) && Plan(run[i + 1]) == Plan(run[i]) + NewMarks(run[i], step)
  {
    hide Plan, NewMarks, Enabled, Do, Init;
    RunInv(run, i);
    assert StepAt(run, i);
    step :| Enabled(run[i], step) && run[i + 1] == Do(run[i], step);
    StepPlan(run[i], step);
  }

  lemma NothingPlanned(s: Sys)
    requires Init(s)
    ensures Plan(s) == []
  {
  }

  lemma {:induction false} AllExplained(run: seq<Sys>, i: nat, n: nat)
    requires IsRun(run) && i < |run| && n < |Plan(run[i])|
    ensures Explained(run, i, n)
  {
    hide Inv, Plan, NewMarks, Enabled, Do, Init, MissingType, StepAt;
    if i == 0 {
      NothingPlanned(run[0]);
    } else {
      var before, after := Plan(run[i - 1]), Plan(run[i]);
      var step := PlanGrows(run, i - 1);
      if n < |before| {
        AllExplained(run, i - 1, n);
        assert after[..n] == before[..n] && after[n] == before[n];
      } else if after[n].MarkFailed? {
        NewIsExplained(run[i - 1], step, n - |before|);
        assert |before| <= n < |after|;
        if n == |before| {
          assert after[..n] == before;
        }
      }
    }
  }

  lemma NewIsExplained(s: Sys, step: Step, n: nat)
    requires Inv(s) && Enabled(s, step) && n < |NewMarks(s, step)| && NewMarks(s, step)[n].MarkFailed?
    ensures var id := NewMarks(s, step)[n].id;
            || (step.Deliver? && n == 0 && Last(Plan(s), id) == Some(MarkInProgress(id)))
            || MissingType(s, id)
  {
    hide Inv;
    if step.Deliver? {
      var m := QueueSteps.Next(s);
      assert m in s.inbox;
      ResultFollowsStart(s, m.job);
    } else {
      DispatchFails(s.reply.value, n);
    }
  }

  /** A start of the job, and no mark of the job since. */
  ghost predicate StartedBefore(ms: seq<Mark>, n: nat)
    requires n < |ms|
  {
    exists k :: 0 <= k < n && ms[k] == MarkInProgress(ms[n].id) && forall x :: k < x < n ==> ms[x].id != ms[n].id
  }

  lemma LastMeansStarted(ms: seq<Mark>, n: nat)
    requires n < |ms| && Last(ms[..n], ms[n].id) == Some(MarkInProgress(ms[n].id))
    ensures StartedBefore(ms, n)
  {
    var k := LatestIndex(ms[..n], ms[n].id);
    assert ms[k] == ms[..n][k] && forall x :: k < x < n ==> ms[x] == ms[..n][x];
  }

  lemma {:induction false} LatestIndex(ms: seq<Mark>, j: JobId) returns (k: nat)
    requires Last(ms, j).Some?
    ensures k < |ms| && ms[k] == Last(ms, j).value
    ensures forall n :: k < n < |ms| ==> ms[n].id != j
  {
    k := |ms| - 1;
    if ms[k].id != j {
      var front := ms[..k];
      k := LatestIndex(front, j);
      assert forall n :: k < n < |front| ==> ms[n] == front[n];
    }
  }

  /**
   The store hears of every attempt's start before it hears of its end.  A success or retry mark comes after a
   start of its job, with no other mark of the job in between; so does a failure mark, unless it was sent by a
   dispatch because the job's type was missing.
   */
  lemma EndsFollowStarts(run: seq<Sys>, i: nat, n: nat)
    requires IsRun(run) && i < |run| && n < |run[i].sent| && !run[i].sent[n].MarkInProgress?
    ensures || StartedBefore(run[i].sent, n)
            || (run[i].sent[n].MarkFailed? &&
                exists k :: 0 <= k < i && |Plan(run[k])| <= n < |Plan(run[k + 1])| && MissingType(run[k], run[i].sent[n].id))
  {
    var s, m := run[i], run[i].sent[n];
    assert Plan(s)[n] == m && Plan(s)[..n] == s.sent[..n];
    if m.MarkFailed? {
      AllExplained(run, i, n);
    } else {
      RunInv(run, i);
      assert Follows(Last(Plan(s)[..n], m.id), m);
      LastIsMember(s.sent[..n], m.id);
    }
    if Last(s.sent[..n], m.id) == Some(MarkInProgress(m.id)) {
      LastMeansStarted(s.sent, n);
    }
  }
}
