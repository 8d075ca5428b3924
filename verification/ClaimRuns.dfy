/**
 Runs that show how far the lease of a claim reaches.

 One job is inserted; calls begin, take the threshold time, claim and read it at chosen times.  Each lemma takes
 a run and extends it by a step or two.

 - `DelayShortensLease`: the lease counts from the time that the first call took at its start.  The later it
   claims after that, the sooner after its claim another call may claim the same job.
 - `OlderLockInBetween`: a claim writes its own call's time into the row.  A call that began long ago can so
   put an older time in place of a newer one, and what a third call then compares with is the older one.
 */
module ClaimRuns {
  import opened Wrappers
  import opened JobTable
  import opened JobJoin
  import opened ClaimProtocol

  const JOB: JobId := 0
  const QUEUE := "default"
  const NO_PARTS := JobDef([], [])
  const NEW_ROW := Row(QUEUE, "Run", "Job", New, 0, 0, 0, None, None, None, None, None)

  function LastOf(run: seq<World>): World
    requires run != []
  {
    run[|run| - 1]
  }

  lemma Extend(run: seq<World>, step: Step) returns (run': seq<World>)
    requires IsRun(run) && Enabled(LastOf(run), step)
    ensures IsRun(run') && LastOf(run') == Do(LastOf(run), step)
  {
    hide Enabled, Do, Init;
    run' := run + [Do(LastOf(run), step)];
    forall i | 0 <= i < |run'| - 1
      ensures StepAt(run', i)
    {
      if i < |run| - 1 {
        assert StepAt(run, i);
        var before :| Enabled(run[i], before) && run[i + 1] == Do(run[i], before);
        assert run'[i] == run[i] && run'[i + 1] == run[i + 1];
      } else {
        assert run'[i] == LastOf(run) && run'[i + 1] == Do(LastOf(run), step);
      }
    }
  }

  /** A world in which the one job is published. */
  function OneJob(lockTimeout: int, clock: Time, row: Row, calls: map<Guid, Call>, log: seq<Event>): World
  {
    World(lockTimeout, clock, map[JOB := row], [], [], map[JOB := Writer(NO_PARTS, 0, 0, true)], calls, log)
  }

  lemma Insert(lockTimeout: int) returns (run: seq<World>)
    ensures IsRun(run) && LastOf(run) == OneJob(lockTimeout, 0, NEW_ROW, map[], [])
  {
    var w := World(lockTimeout, 0, map[], [], [], map[], map[], []);
    run := [w];
    run := Extend(run, BeginAdd(JOB, NO_PARTS, NEW_ROW.(status := Inserting)));
    run := Extend(run, Publish(JOB));
  }

  /** A call as it begins. */
  function Begins(time: Time): Call
  {
    Call({QUEUE}, 1, time, time, Begun, {}, 0, [])
  }

  lemma Wait(run: seq<World>, w: World, to: Time) returns (run': seq<World>)
    requires IsRun(run) && LastOf(run) == w && w.clock <= to
    ensures IsRun(run') && LastOf(run') == w.(clock := to)
  {
    run' := Extend(run, Tick(to));
  }

  lemma Begin(run: seq<World>, w: World, guid: Guid) returns (run': seq<World>)
    requires IsRun(run) && LastOf(run) == w && guid !in w.calls
    ensures IsRun(run') && LastOf(run') == w.(calls := w.calls[guid := Begins(w.clock)])
  {
    run' := Extend(run, BeginGet(guid, {QUEUE}, 1));
  }

  lemma TakeThreshold(run: seq<World>, w: World, guid: Guid) returns (run': seq<World>)
    requires IsRun(run) && LastOf(run) == w && guid in w.calls && w.calls[guid].phase.Begun?
    ensures IsRun(run')
    ensures LastOf(run') == w.(calls := w.calls[guid := w.calls[guid].(thresholdTime := w.clock, phase := Sampled)])
  {
    run' := Extend(run, Sample(guid));
  }

  function Locked(row: Row, guid: Guid, time: Time): Row
  {
    row.(lockGuid := Some(guid), lockClaimTime := Some(time))
  }

  function AfterClaim(c: Call, n: nat): Call
  {
    c.(phase := Claimed, claimed := {JOB}, claimIndex := n)
  }

  lemma ClaimJob(run: seq<World>, w: World, row: Row, guid: Guid) returns (run': seq<World>)
    requires IsRun(run) && LastOf(run) == w && w == OneJob(w.lockTimeout, w.clock, row, w.calls, w.log)
    requires guid in w.calls && w.calls[guid].phase.Sampled? && w.calls[guid].fetchSize == 1
    requires Claimable(row, w.calls[guid].queues, w.calls[guid].lockTime, w.calls[guid].thresholdTime - w.lockTimeout)
    ensures var c := w.calls[guid];
            && IsRun(run')
            && LastOf(run') == OneJob(w.lockTimeout, w.clock, Locked(row, guid, c.lockTime),
                                     w.calls[guid := AfterClaim(c, |w.log|)],
                                     w.log + [ClaimEvent(guid, {JOB}, c.lockTime, c.thresholdTime, w.clock)])
  {
    var c := w.calls[guid];
    assert EligibleFor(w, c) == {JOB};
    assert IsTake(w.rows, {JOB}, 1, {JOB});
    run' := Extend(run, ClaimRows(guid, {JOB}));
    assert Claim(w.rows, {JOB}, guid, c.lockTime) == map[JOB := Locked(row, guid, c.lockTime)];
  }

  lemma Read(run: seq<World>, w: World, row: Row, guid: Guid) returns (run': seq<World>, jobs: seq<LoadedJob>)
    requires IsRun(run) && LastOf(run) == w && w == OneJob(w.lockTimeout, w.clock, row, w.calls, w.log)
    requires guid in w.calls && w.calls[guid].phase.Claimed? && row.lockGuid == Some(guid)
    ensures IsRun(run') && run' != []
    ensures exists i :: 0 <= i < |jobs| && jobs[i].id == JOB
    ensures LastOf(run') == w.(calls := w.calls[guid := w.calls[guid].(phase := Returned, jobs := jobs)])
  {
    hide ExecuteJoinQuery, Product;
    var ids := [JOB];
    assert Holding(w.rows, guid) == {JOB};
    var joined := Product(ids, w.rows, [], []);
    assert Enumerates(ids, Holding(w.rows, guid));
    var defs: map<JobId, JobDef> := map[JOB := NO_PARTS];
    JoinReconstructs(joined, ids, w.rows, defs, [], []);
    jobs := ExecuteJoinQuery(joined);
    run' := Extend(run, ReadRows(guid, ids, joined));
  }

  /** Both calls have returned the job, the second claimed it later, and it was not put back in between. */
  ghost predicate BothGot(w: World, first: Guid, second: Guid)
  {
    && Got(w, first, JOB) && Got(w, second, JOB)
    && IsClaim(w.log, w.calls[first].claimIndex) && IsClaim(w.log, w.calls[second].claimIndex)
    && w.calls[first].claimIndex < w.calls[second].claimIndex
    && !RetriedBetween(w.log, JOB, w.calls[first].claimIndex, w.calls[second].claimIndex)
  }

  /** A call that took both times at `time`, claimed as the event `n`, and returned. */
  function Finished(time: Time, n: nat, jobs: seq<LoadedJob>): Call
  {
    AfterClaim(Begins(time).(phase := Sampled), n).(phase := Returned, jobs := jobs)
  }

  lemma FirstGets(lockTimeout: int, delay: nat) returns (run: seq<World>, jobs: seq<LoadedJob>)
    ensures IsRun(run) && run != []
    ensures exists i :: 0 <= i < |jobs| && jobs[i].id == JOB
    ensures LastOf(run) == OneJob(lockTimeout, delay, Locked(NEW_ROW, 1, 0), map[1 := Finished(0, 0, jobs)],
                                  [ClaimEvent(1, {JOB}, 0, 0, delay)])
  {
    hide IsRun;
    run := Insert(lockTimeout);
    run := Begin(run, LastOf(run), 1);
    run := TakeThreshold(run, LastOf(run), 1);
    run := Wait(run, LastOf(run), delay);
    run := ClaimJob(run, LastOf(run), NEW_ROW, 1);
    run, jobs := Read(run, LastOf(run), Locked(NEW_ROW, 1, 0), 1);
  }

  /**
   Any delay between taking the time and claiming shortens the lease: if the first call claims `delay` after
   it took the time, a second call can claim and return the same job no later than the lock timeout after
   the first claim.
   */
  lemma DelayShortensLease(lockTimeout: nat, delay: nat) returns (run: seq<World>)
    requires delay > 0
    ensures IsRun(run) && LastOf(run).lockTimeout == lockTimeout && BothGot(LastOf(run), 1, 2)
    ensures var w := LastOf(run);
            var first, second := w.log[w.calls[1].claimIndex], w.log[w.calls[2].claimIndex];
            first.at - first.lockTime == delay && second.at - first.at <= lockTimeout
  {
    hide IsRun;
    var late := if delay < lockTimeout + 1 then lockTimeout + 1 else delay;
    var jobs1, jobs2;
    run, jobs1 := FirstGets(lockTimeout, delay);
    run := Wait(run, LastOf(run), late);
    run := Begin(run, LastOf(run), 2);
    run := TakeThreshold(run, LastOf(run), 2);
    run := ClaimJob(run, LastOf(run), Locked(NEW_ROW, 1, 0), 2);
    run, jobs2 := Read(run, LastOf(run), Locked(Locked(NEW_ROW, 1, 0), 2, late), 2);
  }

  /**
   With a third claim in between, a later call can claim the job although its own threshold time says that
   the first claim's lease still lasts: the third call began before the first and left its older time.
   */
  lemma OlderLockInBetween(lockTimeout: nat) returns (run: seq<World>)
    ensures IsRun(run)
    ensures var w := LastOf(run);
            && w.lockTimeout == lockTimeout && |w.log| == 3 && (forall p: nat :: p < 3 ==> IsClaim(w.log, p) && JOB in w.log[p].ids)
            && w.log[0].guid != w.log[2].guid
            && w.log[2].threshold <= w.log[0].lockTime + lockTimeout
  {
    hide IsRun;
    run := Insert(lockTimeout);
    run := Begin(run, LastOf(run), 3);
    run := Wait(run, LastOf(run), 1);
    run := Begin(run, LastOf(run), 1);
    run := TakeThreshold(run, LastOf(run), 1);
    run := ClaimJob(run, LastOf(run), NEW_ROW, 1);
    run := Wait(run, LastOf(run), lockTimeout + 1);
    run := Begin(run, LastOf(run), 2);
    run := TakeThreshold(run, LastOf(run), 2);
    run := Wait(run, LastOf(run), lockTimeout + 2);
    run := TakeThreshold(run, LastOf(run), 3);
    run := ClaimJob(run, LastOf(run), Locked(NEW_ROW, 1, 1), 3);
    run := ClaimJob(run, LastOf(run), Locked(Locked(NEW_ROW, 1, 1), 3, 0), 2);
  }
}
