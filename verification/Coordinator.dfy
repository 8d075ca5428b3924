/**
 The coordinator of one queue.

 A message handler updates the coordinator's counters and performs effects, in order: tells to the
 workers, tells to the storage actor, and blocking asks.  `Handle` and `OnFetched` are the handlers as
 functions; class `JobQueueCoordinator` has the handlers as they update their fields, and its contracts
 tie the two.  Handlers that a subclass may override do nothing here.
 */
module Coordinator {
  import opened Wrappers
  import opened JobTable
  import opened Messages

  datatype Effect =
    | ToWorker(job: Job)
    | ToStore(mark: Mark)
    | ToSelf
    | BroadcastShutDown
    | AskJobs(fetchSize: nat)
    | AskFlush
    | TellConfigured
    | TellRequester

  datatype Coord = Coord(
    shuttingDown: bool,
    workerCount: nat,
    shutdownCount: nat,
    pendingItems: int,
    saturationStartTime: Option<Time>,
    saturationPulseCount: int,
    queueLifeSaturationPulseCount: int,
    aggressiveSweep: bool)

  predicate Saturated(c: Coord)
  {
    !(c.pendingItems < c.workerCount * 2)
  }

  predicate IsSweep(m: Message)
  {
    m.JobSweep? || m.SilentRetrySweep?
  }

  /** Does a failed job go to the failed state for good? */
  predicate OutOfRetries(job: Job)
  {
    job.retry.None? || job.retry.value.maxRetries <= job.retry.value.retryCount
  }

  function Sweep(c: Coord, m: Message, now: Time): (Coord, seq<Effect>)
  {
    if !Saturated(c) then
      (c.(saturationStartTime := None, saturationPulseCount := 0), [AskJobs(c.workerCount)])
    else
      (if m.JobSweep? then
         c.(saturationStartTime := if c.saturationStartTime.Some? then c.saturationStartTime else Some(now),
            saturationPulseCount := c.saturationPulseCount + 1,
            queueLifeSaturationPulseCount := c.queueLifeSaturationPulseCount + 1)
       else c,
       if c.aggressiveSweep then [ToSelf] else [])
  }

  /** The handler of one message, up to and including its effects; the `bool` says it was handled. */
  function Handle(c: Coord, m: Message, now: Time): (Coord, seq<Effect>, bool)
  {
    match m
    case SetJobQueueConfiguration(n, aggressive) =>
      (c.(workerCount := n, aggressiveSweep := aggressive), [TellConfigured], true)
    case ShutDownQueues =>
      (c.(shuttingDown := true), [BroadcastShutDown], true)
    case QueueShutDown =>
      var c' := c.(shutdownCount := c.shutdownCount + 1, saturationPulseCount := 0);
      (c', if c'.shutdownCount == c'.workerCount then [AskFlush, TellRequester] else [], true)
    case JobSucceeded(job) =>
      (c.(pendingItems := c.pendingItems - 1), [ToStore(MarkSuccess(job.id))], true)
    case JobFailed(job) =>
      (c.(pendingItems := c.pendingItems - 1),
       [ToStore(if OutOfRetries(job) then MarkFailed(job.id) else MarkRetry(job.id))], true)
    case _ =>
      if IsSweep(m) && !c.shuttingDown then
        var (c', es) := Sweep(c, m, now);
        (c', es, true)
      else (c, [], false)
  }

  function EffectsFor(f: Fetched): seq<Effect>
  {
    if f.typeMissing then [ToStore(MarkFailed(f.job.id))]
    else [ToWorker(f.job), ToStore(MarkInProgress(f.job.id))]
  }

  function DispatchEffects(fs: seq<Fetched>): seq<Effect>
  {
    if fs == [] then [] else DispatchEffects(fs[..|fs| - 1]) + EffectsFor(fs[|fs| - 1])
  }

  function DispatchCount(fs: seq<Fetched>): (n: nat)
    ensures n <= |fs|
  {
    if fs == [] then 0 else DispatchCount(fs[..|fs| - 1]) + if fs[|fs| - 1].typeMissing then 0 else 1
  }

  /** The rest of a sweep, once the ask for jobs was answered or timed out (`None`). */
  function OnFetched(c: Coord, reply: Option<seq<Fetched>>): (Coord, seq<Effect>)
  {
    if reply.None? then (c, [])
    else (c.(pendingItems := c.pendingItems + DispatchCount(reply.value)), DispatchEffects(reply.value))
  }

  /** A whole sweep: its first part, and the rest if it asked for jobs. */
  function SweepToEnd(c: Coord, m: Message, now: Time, reply: Option<seq<Fetched>>): (Coord, seq<Effect>)
  {
    var (c1, e1) := Sweep(c, m, now);
    if Saturated(c) then (c1, e1) else
    var (c2, e2) := OnFetched(c1, reply);
    (c2, e1 + e2)
  }

  // ----- what a sweep and a dispatch come to -----

  /** The jobs whose type was found. */
  ghost function WithType(fs: seq<Fetched>): set<nat>
  {
    set i: nat | i < |fs| && !fs[i].typeMissing
  }

  /** The effects are those of the jobs in order: a worker is told and then the store, or the store alone. */
  ghost predicate TellsInOrder(es: seq<Effect>, fs: seq<Fetched>)
  {
    if fs == [] then es == []
    else if fs[0].typeMissing then
      |es| >= 1 && es[0] == ToStore(MarkFailed(fs[0].job.id)) && TellsInOrder(es[1..], fs[1..])
    else
      && |es| >= 2 && es[0] == ToWorker(fs[0].job) && es[1] == ToStore(MarkInProgress(fs[0].job.id))
      && TellsInOrder(es[2..], fs[1..])
  }

  lemma {:induction false} TellsOneMore(es: seq<Effect>, fs: seq<Fetched>, f: Fetched)
    requires TellsInOrder(es, fs)
    ensures TellsInOrder(es + EffectsFor(f), fs + [f])
    decreases |fs|
  {
    if fs == [] {
      var all := es + EffectsFor(f);
      assert fs + [f] == [f] && [f][1..] == [] && all == EffectsFor(f);
      assert if f.typeMissing then all[1..] == [] else all[2..] == [];
    } else {
      var k := if fs[0].typeMissing then 1 else 2;
      TellsOneMore(es[k..], fs[1..], f);
      assert (es + EffectsFor(f))[k..] == es[k..] + EffectsFor(f) && (fs + [f])[1..] == fs[1..] + [f];
    }
  }

  lemma {:induction false} DispatchCounts(fs: seq<Fetched>)
    ensures DispatchCount(fs) == |WithType(fs)|
  {
    if fs != [] {
      var n := |fs| - 1;
      DispatchCounts(fs[..n]);
      assert WithType(fs) == WithType(fs[..n]) + if fs[n].typeMissing then {} else {n};
    }
  }

  lemma {:induction false} DispatchTells(fs: seq<Fetched>)
    ensures TellsInOrder(DispatchEffects(fs), fs)
  {
    hide TellsInOrder;
    var n := |fs| - 1;
    if fs == [] {
      NothingToTell();
    } else {
      DispatchTells(fs[..n]);
      TellsOneMore(DispatchEffects(fs[..n]), fs[..n], fs[n]);
      assert fs[..n] + [fs[n]] == fs;
    }
  }

  lemma NothingToTell()
    ensures TellsInOrder([], [])
  {
  }

  lemma DispatchExactly(fs: seq<Fetched>)
    ensures DispatchCount(fs) == |WithType(fs)| && TellsInOrder(DispatchEffects(fs), fs)
  {
    DispatchCounts(fs);
    DispatchTells(fs);
  }

  /** Fewer than twice as many jobs pending as there are workers: new jobs; otherwise at most the counters change. */
  ghost predicate Swept(c: Coord, c': Coord, m: Message, reply: Option<seq<Fetched>>, now: Time)
  {
    if c.pendingItems < 2 * c.workerCount then
      c' == c.(saturationStartTime := None, saturationPulseCount := 0,
               pendingItems := c.pendingItems + if reply.Some? then |WithType(reply.value)| else 0)
    else if m == SilentRetrySweep then c' == c
    else
      && c'.saturationPulseCount == c.saturationPulseCount + 1
      && c'.queueLifeSaturationPulseCount == c.queueLifeSaturationPulseCount + 1
      && (c.saturationStartTime.Some? ==> c'.saturationStartTime == c.saturationStartTime)
      && (c.saturationStartTime.None? ==> c'.saturationStartTime == Some(now))
      && c' == c.(saturationStartTime := c'.saturationStartTime, saturationPulseCount := c'.saturationPulseCount,
                  queueLifeSaturationPulseCount := c'.queueLifeSaturationPulseCount)
  }

  function SweepEffects(c: Coord, reply: Option<seq<Fetched>>): seq<Effect>
  {
    if c.pendingItems < 2 * c.workerCount then
      [AskJobs(c.workerCount)] + if reply.Some? then DispatchEffects(reply.value) else []
    else if c.aggressiveSweep then [ToSelf]
    else []
  }

  lemma SweepExactly(c: Coord, m: Message, now: Time, reply: Option<seq<Fetched>>)
    requires IsSweep(m)
    ensures var (c', es) := SweepToEnd(c, m, now, reply); Swept(c, c', m, reply, now) && es == SweepEffects(c, reply)
  {
    hide WithType, TellsInOrder, DispatchEffects, DispatchCount;
    if reply.Some? {
      DispatchExactly(reply.value);
    }
  }

  /** One more job of a dispatch. */
  lemma DispatchStep(fs: seq<Fetched>, i: nat)
    requires i < |fs|
    ensures DispatchCount(fs[..i + 1]) == DispatchCount(fs[..i]) + if fs[i].typeMissing then 0 else 1
    ensures DispatchEffects(fs[..i + 1]) == DispatchEffects(fs[..i]) + EffectsFor(fs[i])
  {
    assert fs[..i + 1][..i] == fs[..i];
  }

  lemma DispatchEnds(fs: seq<Fetched>)
    ensures DispatchCount(fs[..0]) == 0 && DispatchEffects(fs[..0]) == [] && fs[..|fs|] == fs
  {
  }

  class JobQueueCoordinator {
    var ShuttingDown: bool
    var WorkerCount: nat
    var ShutdownCount: nat
    var PendingItems: int
    var SaturationStartTime: Option<Time>
    var SaturationPulseCount: int
    var QueueLifeSaturationPulseCount: int
    var AggressiveSweep: bool

    /** The effects performed so far. */
    var effects: seq<Effect>

    constructor ()
      ensures View() == Coord(false, 0, 0, 0, None, 0, 0, false) && effects == []
    {
      ShuttingDown, WorkerCount, ShutdownCount, PendingItems := false, 0, 0, 0;
      SaturationStartTime, SaturationPulseCount, QueueLifeSaturationPulseCount := None, 0, 0;
      AggressiveSweep := false;
      effects := [];
    }

    function View(): Coord
      reads this
    {
      Coord(ShuttingDown, WorkerCount, ShutdownCount, PendingItems, SaturationStartTime,
            SaturationPulseCount, QueueLifeSaturationPulseCount, AggressiveSweep)
    }

    /** `reply` is what the ask for jobs will answer, should the handler ask. */
    method Receive(message: Message, reply: Option<seq<Fetched>>, now: Time) returns (handled: bool)
      modifies this
      ensures message.SetJobQueueConfiguration? ==>
                && View() == old(View()).(workerCount := message.numWorkers, aggressiveSweep := message.aggressiveSweep)
                && effects == old(effects) + [TellConfigured]
      ensures message.ShutDownQueues? ==>
                && View() == old(View()).(shuttingDown := true)
                && effects == old(effects) + [BroadcastShutDown]
      ensures message.QueueShutDown? ==>
                && View() == old(View()).(shutdownCount := old(ShutdownCount) + 1, saturationPulseCount := 0)
                && effects == old(effects) + if old(ShutdownCount) + 1 == WorkerCount then [AskFlush, TellRequester] else []
      ensures message.JobSucceeded? ==>
                && View() == old(View()).(pendingItems := old(PendingItems) - 1)
                && effects == old(effects) + [ToStore(MarkSuccess(message.job.id))]
      ensures message.JobFailed? ==>
                && View() == old(View()).(pendingItems := old(PendingItems) - 1)
                && effects == old(effects) + [ToStore(
                     match message.job.retry
                     case Some(r) => if r.retryCount < r.maxRetries then MarkRetry(message.job.id) else MarkFailed(message.job.id)
                     case None => MarkFailed(message.job.id))]
      ensures (message == JobSweep || message == SilentRetrySweep) && !old(ShuttingDown) ==>
                && Swept(old(View()), View(), message, reply, now)
                && effects == old(effects) + SweepEffects(old(View()), reply)
      ensures !handled ==> View() == old(View()) && effects == old(effects)
      ensures !handled <==>
                || message.ExecuteJobRequest? || message.GetJobs? || message.MarkJob? || message == Custom
                || ((message == JobSweep || message == SilentRetrySweep) && old(ShuttingDown))
      ensures handled == Handle(old(View()), message, now).2
      ensures IsSweep(message) && !old(ShuttingDown) ==>
                var (c, es) := SweepToEnd(old(View()), message, now, reply);
                View() == c && effects == old(effects) + es
      ensures !IsSweep(message) || old(ShuttingDown) ==>
                var (c, es, _) := Handle(old(View()), message, now);
                View() == c && effects == old(effects) + es
    {
      hide Swept, SweepEffects, Sweep, OnFetched, DispatchEffects;
      if message.SetJobQueueConfiguration? {
        WorkerCount := message.numWorkers;
        AggressiveSweep := message.aggressiveSweep;
        effects := effects + [TellConfigured];
      } else if message.ShutDownQueues? {
        ShuttingDown := true;
        effects := effects + [BroadcastShutDown];
      } else if message.QueueShutDown? {
        ShutdownCount := ShutdownCount + 1;
        SaturationPulseCount := 0;
        if ShutdownCount == WorkerCount {
          effects := effects + [AskFlush, TellRequester];
        }
      } else if IsSweep(message) && !ShuttingDown {
        HandleSweep(message, reply, now);
      } else if message.JobSucceeded? {
        effects := effects + [ToStore(MarkSuccess(message.job.id))];
        PendingItems := PendingItems - 1;
      } else if message.JobFailed? {
        PendingItems := PendingItems - 1;
        if message.job.retry.None? || message.job.retry.value.maxRetries <= message.job.retry.value.retryCount {
          effects := effects + [ToStore(MarkFailed(message.job.id))];
        } else {
          effects := effects + [ToStore(MarkRetry(message.job.id))];
        }
      } else {
        return false;
      }
      return true;
    }

    method HandleSweep(message: Message, jobsToQueue: Option<seq<Fetched>>, now: Time)
      requires IsSweep(message)
      modifies this
      ensures Swept(old(View()), View(), message, jobsToQueue, now)
      ensures effects == old(effects) + SweepEffects(old(View()), jobsToQueue)
      ensures var (c, es) := SweepToEnd(old(View()), message, now, jobsToQueue);
              View() == c && effects == old(effects) + es
    {
      hide Swept, SweepEffects, WithType, TellsInOrder, DispatchEffects, DispatchCount;
      SweepExactly(View(), message, now, jobsToQueue);
      if PendingItems < WorkerCount * 2 {
        SaturationStartTime := None;
        SaturationPulseCount := 0;
        effects := effects + [AskJobs(WorkerCount)];
        if jobsToQueue.Some? {
          Dispatch(jobsToQueue.value);
        }
      } else {
        if message.JobSweep? {
          SaturationStartTime := if SaturationStartTime.Some? then SaturationStartTime else Some(now);
          SaturationPulseCount := SaturationPulseCount + 1;
          QueueLifeSaturationPulseCount := QueueLifeSaturationPulseCount + 1;
        }
        if AggressiveSweep {
          effects := effects + [ToSelf];
        }
      }
    }

    /** The loop over the fetched jobs: a worker is told before the store is. */
    method Dispatch(jobs: seq<Fetched>)
      modifies this
      ensures View() == old(View()).(pendingItems := old(PendingItems) + DispatchCount(jobs))
      ensures effects == old(effects) + DispatchEffects(jobs)
      ensures PendingItems == old(PendingItems) + |WithType(jobs)|
      ensures TellsInOrder(DispatchEffects(jobs), jobs)
    {
      hide WithType, TellsInOrder, DispatchEffects, DispatchCount;
      DispatchExactly(jobs);
      DispatchEnds(jobs);
      for i := 0 to |jobs|
        invariant View() == old(View()).(pendingItems := old(PendingItems) + DispatchCount(jobs[..i]))
        invariant effects == old(effects) + DispatchEffects(jobs[..i])
      {
        DispatchStep(jobs, i);
        if jobs[i].typeMissing {
          effects := effects + [ToStore(MarkFailed(jobs[i].job.id))];
        } else {
          effects := effects + [ToWorker(jobs[i].job)];
          effects := effects + [ToStore(MarkInProgress(jobs[i].job.id))];
          PendingItems := PendingItems + 1;
        }
      }
    }
  }

  /**
   A silent sweep never raises a saturation counter.  It leaves the counters alone exactly when the queue
   is saturated or the counters are already clear: an unsaturated sweep clears them, silent or not.
   */
  lemma SilentSweepCounters(c: Coord, now: Time)
    requires !c.shuttingDown
    ensures var c' := Handle(c, SilentRetrySweep, now).0;
            && c'.queueLifeSaturationPulseCount == c.queueLifeSaturationPulseCount
            && (c'.saturationPulseCount == c.saturationPulseCount || c'.saturationPulseCount == 0)
            && ((c'.saturationPulseCount == c.saturationPulseCount &&
                 c'.saturationStartTime == c.saturationStartTime) <==>
                (Saturated(c) || (c.saturationPulseCount == 0 && c.saturationStartTime.None?)))
  {
  }
}
