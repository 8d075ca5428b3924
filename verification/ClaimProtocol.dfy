/**
 Any number of processes on one set of tables: adders insert jobs statement by statement, managers claim and then
 read, and jobs that some manager has returned are marked.  Every statement is atomic; between statements anything
 may happen.  A GetJobs call takes the time twice, then claims with one UPDATE, then reads.
 */
module ClaimProtocol {
  import opened Wrappers
  import opened JobTable
  import opened JobJoin

  /** How far a GetJobs call has come. */
  datatype Phase = Begun | Sampled | Claimed | Returned

  datatype Call = Call(
    queues: set<string>,
    fetchSize: nat,
    lockTime: Time,
    thresholdTime: Time,
    phase: Phase,
    claimed: set<JobId>,
    claimIndex: nat,          // where the log records the claim
    jobs: seq<LoadedJob>)

  /** How far the insertion of a job has come: side rows written, and whether it is published. */
  datatype Writer = Writer(def: JobDef, params: nat, generics: nat, done: bool)

  datatype Event =
    | ClaimEvent(guid: Guid, ids: set<JobId>, lockTime: Time, threshold: Time, at: Time)
    | MarkEvent(mark: Mark)

  datatype World = World(
    lockTimeout: int,
    clock: Time,
    rows: Table,
    params: seq<ParamRow>,
    generics: seq<GenericRow>,
    writers: map<JobId, Writer>,
    calls: map<Guid, Call>,
    log: seq<Event>)

  datatype Step =
    | Tick(to: Time)
    | BeginAdd(id: JobId, def: JobDef, row: Row)
    | AddParam(id: JobId)
    | AddGeneric(id: JobId)
    | Publish(id: JobId)
    | BeginGet(guid: Guid, queues: set<string>, fetchSize: nat)
    | Sample(guid: Guid)
    | ClaimRows(guid: Guid, chosen: set<JobId>)
    | ReadRows(guid: Guid, ids: seq<JobId>, joined: seq<JoinedRow>)
    | Apply(mark: Mark, caller: Guid, index: nat)

  ghost predicate Enabled(w: World, step: Step)
  {
    match step
    case Tick(to) => w.clock <= to
    case BeginAdd(id, def, row) =>
      id !in w.rows && id !in w.writers && row.status.Inserting? && row.retryCount == 0
      && row.lockClaimTime.None? && row.lockGuid.None?
    case AddParam(id) => id in w.writers && w.writers[id].params < |w.writers[id].def.args|
    case AddGeneric(id) =>
      id in w.writers && w.writers[id].params == |w.writers[id].def.args|
      && w.writers[id].generics < |w.writers[id].def.genericTypes|
    case Publish(id) =>
      id in w.writers && id in w.rows && !w.writers[id].done
      && w.writers[id].params == |w.writers[id].def.args|
      && w.writers[id].generics == |w.writers[id].def.genericTypes|
    case BeginGet(guid, queues, fetchSize) => guid !in w.calls
    case Sample(guid) => guid in w.calls && w.calls[guid].phase.Begun?
    case ClaimRows(guid, chosen) =>
      guid in w.calls && w.calls[guid].phase.Sampled?
      && IsTake(w.rows, EligibleFor(w, w.calls[guid]), w.calls[guid].fetchSize, chosen)
    case ReadRows(guid, ids, joined) =>
      guid in w.calls && w.calls[guid].phase.Claimed?
      && Enumerates(ids, Holding(w.rows, guid))
      && multiset(joined) == multiset(Product(ids, w.rows, w.params, w.generics))
    case Apply(mark, caller, index) =>
      caller in w.calls && w.calls[caller].phase.Returned? && index < |w.calls[caller].jobs|
      && w.calls[caller].jobs[index].id == mark.id
  }

  function EligibleFor(w: World, c: Call): set<JobId>
  {
    Eligible(w.rows, c.queues, c.lockTime, c.thresholdTime - w.lockTimeout)
  }

  function Do(w: World, step: Step): World
    requires Enabled(w, step)
  {
    match step
    case Tick(to) => w.(clock := to)
    case BeginAdd(id, def, row) => w.(rows := w.rows[id := row], writers := w.writers[id := Writer(def, 0, 0, false)])
    case AddParam(id) =>
      var wr := w.writers[id];
      w.(params := w.params + [ParamOf(id, wr.def.args[wr.params])],
         writers := w.writers[id := wr.(params := wr.params + 1)])
    case AddGeneric(id) =>
      var wr := w.writers[id];
      w.(generics := w.generics + [GenericRow(id, wr.generics, wr.def.genericTypes[wr.generics])],
         writers := w.writers[id := wr.(generics := wr.generics + 1)])
    case Publish(id) =>
      w.(rows := w.rows[id := w.rows[id].(status := New)], writers := w.writers[id := w.writers[id].(done := true)])
    case BeginGet(guid, queues, fetchSize) =>
      w.(calls := w.calls[guid := Call(queues, fetchSize, w.clock, w.clock, Begun, {}, 0, [])])
    case Sample(guid) =>
      w.(calls := w.calls[guid := w.calls[guid].(thresholdTime := w.clock, phase := Sampled)])
    case ClaimRows(guid, chosen) =>
      var c := w.calls[guid];
      w.(rows := Claim(w.rows, chosen, guid, c.lockTime),
         calls := w.calls[guid := c.(phase := Claimed, claimed := chosen, claimIndex := |w.log|)],
         log := w.log + [ClaimEvent(guid, chosen, c.lockTime, c.thresholdTime, w.clock)])
    case ReadRows(guid, ids, joined) =>
      w.(calls := w.calls[guid := w.calls[guid].(phase := Returned, jobs := ExecuteJoinQuery(joined))])
    case Apply(mark, _, _) => w.(rows := ApplyMark(w.rows, mark, w.clock), log := w.log + [MarkEvent(mark)])
  }

  ghost predicate Init(w: World)
  {
    w.rows == map[] && w.params == [] && w.generics == [] && w.writers == map[] && w.calls == map[] && w.log == []
  }

  ghost predicate StepAt(run: seq<World>, i: nat)
    requires i < |run| - 1
  {
    exists step :: Enabled(run[i], step) && run[i + 1] == Do(run[i], step)
  }

  ghost predicate IsRun(run: seq<World>)
  {
    run != [] && Init(run[0]) && forall i :: 0 <= i < |run| - 1 ==> StepAt(run, i)
  }

  // ----- the invariant -----

  predicate Past(c: Call)
  {
    c.phase.Claimed? || c.phase.Returned?
  }

  /** A job's side rows are exactly those its adder has written. */
  ghost predicate Written(w: World, id: JobId)
    requires id in w.writers
  {
    var wr := w.writers[id];
    && wr.params <= |wr.def.args| && wr.generics <= |wr.def.genericTypes|
    && (wr.done ==> wr.params == |wr.def.args| && wr.generics == |wr.def.genericTypes|)
    && (forall p :: p in w.params && p.guid == id <==> p in ParamData(id, wr.def)[..wr.params])
    && (forall g :: g in w.generics && g.guid == id <==> g in GenericData(id, wr.def)[..wr.generics])
  }

  /** Every row has an adder, no side row is without one, and a row is being inserted until it is published. */
  ghost predicate Writers(w: World)
  {
    && w.rows.Keys == w.writers.Keys
    && (forall id :: id in w.writers ==> Written(w, id))
    && (forall p :: p in w.params ==> p.guid in w.writers)
    && (forall g :: g in w.generics ==> g.guid in w.writers)
    && (forall id :: id in w.rows ==> (w.rows[id].status.Inserting? <==> !w.writers[id].done))
  }

  /** A returned batch: claimed jobs, each once, as they were inserted. */
  ghost predicate Delivered(w: World, c: Call)
  {
    && (forall i, k :: 0 <= i < k < |c.jobs| ==> c.jobs[i].id != c.jobs[k].id)
    && forall i :: 0 <= i < |c.jobs| ==>
         c.jobs[i].id in c.claimed && c.jobs[i].id in w.writers && AsInserted(c.jobs[i], w.writers[c.jobs[i].id].def)
  }

  ghost predicate AsInserted(job: LoadedJob, def: JobDef)
  {
    && (job.args == def.args <==> ArgsReadable(def))
    && (job.genericTypes == def.genericTypes <==> GenericsReadable(def))
  }

  ghost predicate IsClaim(log: seq<Event>, p: nat)
  {
    p < |log| && log[p].ClaimEvent?
  }

  ghost predicate CallOk(w: World, guid: Guid)
    requires guid in w.calls
  {
    var c := w.calls[guid];
    && c.lockTime <= c.thresholdTime <= w.clock
    && (Past(c) ==>
          && |c.claimed| <= c.fetchSize
          && IsClaim(w.log, c.claimIndex)
          && w.log[c.claimIndex].guid == guid
          && w.log[c.claimIndex].ids == c.claimed
          && w.log[c.claimIndex].lockTime == c.lockTime)
    && (c.phase.Returned? ==> Delivered(w, c))
  }

  ghost predicate Calls(w: World)
  {
    forall guid :: guid in w.calls ==> CallOk(w, guid)
  }

  /** A row's lock GUID belongs to a call that has claimed it. */
  ghost predicate HeldByClaimer(w: World, id: JobId)
    requires id in w.rows && w.rows[id].lockGuid.Some?
  {
    var g := w.rows[id].lockGuid.value;
    g in w.calls && Past(w.calls[g]) && id in w.calls[g].claimed
  }

  ghost predicate Held(w: World)
  {
    forall id :: id in w.rows && w.rows[id].lockGuid.Some? ==> HeldByClaimer(w, id)
  }

  /** Only published jobs are claimed. */
  ghost predicate Published(w: World)
  {
    forall p: nat, id :: IsClaim(w.log, p) && id in w.log[p].ids ==> id in w.writers && w.writers[id].done
  }

  /** Was the job put back for retry at or after position `from`? */
  ghost predicate RetriedSince(log: seq<Event>, id: JobId, from: nat)
  {
    exists r: nat :: from <= r < |log| && log[r] == MarkEvent(MarkRetry(id))
  }

  predicate Open(r: Row)
  {
    r.status.New? || r.status.Retry?
  }

  /** Was the job claimed strictly between two positions? */
  ghost predicate TakenBetween(log: seq<Event>, id: JobId, p: nat, q: nat)
  {
    exists r: nat :: p < r < q && IsClaim(log, r) && id in log[r].ids
  }

  ghost predicate RetriedBetween(log: seq<Event>, id: JobId, p: nat, q: nat)
  {
    exists r: nat :: p < r < q && r < |log| && log[r] == MarkEvent(MarkRetry(id))
  }

  /** As long as a claimed job is neither put back nor claimed again, it is closed or carries the claim's lock. */
  ghost predicate Guarded(w: World, p: nat, id: JobId)
    requires IsClaim(w.log, p)
  {
    id in w.log[p].ids && !TakenBetween(w.log, id, p, |w.log|) && !RetriedSince(w.log, id, p) ==>
      id in w.rows && (!Open(w.rows[id]) || w.rows[id].lockClaimTime == Some(w.log[p].lockTime))
  }

  /** Two claims of one job in a row: it was put back in between, or the second saw the first's lock expired. */
  ghost predicate Apart(w: World, p: nat, q: nat, id: JobId)
    requires IsClaim(w.log, p) && IsClaim(w.log, q)
  {
    id in w.log[p].ids && id in w.log[q].ids && !TakenBetween(w.log, id, p, q) ==>
      RetriedBetween(w.log, id, p, q) || w.log[q].threshold > w.log[p].lockTime + w.lockTimeout
  }

  ghost predicate Leases(w: World)
  {
    forall p: nat, id :: IsClaim(w.log, p) ==> Guarded(w, p, id)
  }

  ghost predicate Exclusive(w: World)
  {
    forall p: nat, q: nat, id :: p < q && IsClaim(w.log, p) && IsClaim(w.log, q) ==> Apart(w, p, q, id)
  }

  /** A claim comes after the times that its call took, and claims are recorded as they come. */
  ghost predicate Timed(w: World)
  {
    && (forall p: nat :: IsClaim(w.log, p) ==> w.log[p].lockTime <= w.log[p].threshold <= w.log[p].at <= w.clock)
    && forall p: nat, q: nat :: p < q && IsClaim(w.log, p) && IsClaim(w.log, q) ==> w.log[p].at <= w.log[q].at
  }

  ghost predicate Inv(w: World)
  {
    Writers(w) && Calls(w) && Held(w) && Published(w) && Leases(w) && Exclusive(w) && Timed(w)
  }

  // ----- what a step may change -----

  /** Adders only go forward. */
  ghost predicate Grows(w: World, w': World)
  {
    && w.clock <= w'.clock && w'.lockTimeout == w.lockTimeout
    && forall id :: id in w.writers ==>
         id in w'.writers && w'.writers[id].def == w.writers[id].def && (w.writers[id].done ==> w'.writers[id].done)
  }

  lemma KeepsWriters(w: World, w': World)
    requires Writers(w) && w'.writers == w.writers && w'.params == w.params && w'.generics == w.generics
    requires w'.rows.Keys == w.rows.Keys
    requires forall id :: id in w.rows ==> (w'.rows[id].status.Inserting? <==> w.rows[id].status.Inserting?)
    ensures Writers(w')
  {
    assert forall id :: id in w.writers && Written(w, id) ==> Written(w', id);
  }

  /** The calls' bookkeeping depends only on a log that grows and on adders that go forward. */
  lemma KeepsCall(w: World, w': World, guid: Guid)
    requires guid in w.calls && CallOk(w, guid) && guid in w'.calls && w'.calls[guid] == w.calls[guid]
    requires Grows(w, w') && w.log <= w'.log
    ensures CallOk(w', guid)
  {
  }

  lemma KeepsCalls(w: World, w': World)
    requires Calls(w) && w'.calls == w.calls && Grows(w, w') && w.log <= w'.log
    ensures Calls(w')
  {
    forall guid | guid in w'.calls
      ensures CallOk(w', guid)
    {
      KeepsCall(w, w', guid);
    }
  }

  lemma KeepsHeld(w: World, w': World)
    requires Held(w) && w'.calls == w.calls
    requires forall id :: id in w'.rows && w'.rows[id].lockGuid.Some? ==>
               id in w.rows && w'.rows[id].lockGuid == w.rows[id].lockGuid
    ensures Held(w')
  {
    forall id | id in w'.rows && w'.rows[id].lockGuid.Some?
      ensures HeldByClaimer(w', id)
    {
      assert HeldByClaimer(w, id);
    }
  }

  lemma KeepsPublished(w: World, w': World)
    requires Published(w) && Grows(w, w') && w'.log == w.log
    ensures Published(w')
  {
  }

  lemma KeepsTimed(w: World, w': World)
    requires Timed(w) && w'.log == w.log && w.clock <= w'.clock
    ensures Timed(w')
  {
  }

  /** Without a new event, leases last while the claimed rows keep their state and lock. */
  lemma KeepsLeases(w: World, w': World)
    requires Leases(w) && Published(w) && Grows(w, w') && w'.log == w.log
    requires forall id :: id in w.rows && id in w.writers && w.writers[id].done ==> id in w'.rows && w'.rows[id] == w.rows[id]
    ensures Leases(w')
  {
    forall p: nat, id | IsClaim(w'.log, p)
      ensures Guarded(w', p, id)
    {
      assert Guarded(w, p, id);
    }
  }

  lemma KeepsExclusive(w: World, w': World)
    requires Exclusive(w) && w'.log == w.log && w'.lockTimeout == w.lockTimeout
    ensures Exclusive(w')
  {
    forall p: nat, q: nat, id | p < q && IsClaim(w'.log, p) && IsClaim(w'.log, q)
      ensures Apart(w', p, q, id)
    {
      assert Apart(w, p, q, id);
    }
  }

  /** A step of an adder or of the clock: no call, no event, no published row changes. */
  lemma KeepsRest(w: World, w': World)
    requires Calls(w) && Held(w) && Published(w) && Leases(w) && Exclusive(w) && Timed(w)
    requires w'.calls == w.calls && w'.log == w.log && Grows(w, w')
    requires forall id :: id in w'.rows && w'.rows[id].lockGuid.Some? ==>
               id in w.rows && w'.rows[id].lockGuid == w.rows[id].lockGuid
    requires forall id :: id in w.rows && id in w.writers && w.writers[id].done ==> id in w'.rows && w'.rows[id] == w.rows[id]
    ensures Calls(w') && Held(w') && Published(w') && Leases(w') && Exclusive(w') && Timed(w')
  {
    KeepsCalls(w, w');
    KeepsHeld(w, w');
    KeepsPublished(w, w');
    KeepsLeases(w, w');
    KeepsExclusive(w, w');
    KeepsTimed(w, w');
  }

  // ----- adders -----

  lemma KeepsWritten(w: World, w': World, id: JobId)
    requires id in w.writers && Written(w, id) && id in w'.writers && w'.writers[id] == w.writers[id]
    requires forall p: ParamRow :: p.guid == id ==> (p in w'.params <==> p in w.params)
    requires forall g: GenericRow :: g.guid == id ==> (g in w'.generics <==> g in w.generics)
    ensures Written(w', id)
  {
  }

  lemma BegunWritten(w: World, step: Step, id: JobId)
    requires Writers(w) && Enabled(w, step) && step.BeginAdd? && id in Do(w, step).writers
    ensures Written(Do(w, step), id)
  {
    if id != step.id {
      KeepsWritten(w, Do(w, step), id);
    }
  }

  lemma OnBeginAdd(w: World, step: Step)
    requires Writers(w) && Enabled(w, step) && step.BeginAdd?
    ensures Writers(Do(w, step))
  {
    hide Written;
    forall id | id in Do(w, step).writers
      ensures Written(Do(w, step), id)
    {
      BegunWritten(w, step, id);
    }
  }

  /** One more row of the side tables, and one more row written. */
  lemma ParamWritten(w: World, id: JobId)
    requires id in w.writers && Written(w, id) && w.writers[id].params < |w.writers[id].def.args|
    ensures Written(Do(w, AddParam(id)), id)
  {
    var wr := w.writers[id];
    var all := ParamData(id, wr.def);
    assert all[wr.params] == ParamOf(id, wr.def.args[wr.params]);
    assert all[..wr.params + 1] == all[..wr.params] + [all[wr.params]];
  }

  lemma OnAddParam(w: World, step: Step)
    requires Writers(w) && Enabled(w, step) && step.AddParam?
    ensures Writers(Do(w, step))
  {
    hide Written, ParamData;
    var w' := Do(w, step);
    assert Written(w, step.id);
    ParamWritten(w, step.id);
    forall id | id in w'.writers
      ensures Written(w', id)
    {
      if id != step.id {
        KeepsWritten(w, w', id);
      }
    }
  }

  lemma GenericWritten(w: World, id: JobId)
    requires id in w.writers && Written(w, id) && Enabled(w, AddGeneric(id))
    ensures Written(Do(w, AddGeneric(id)), id)
  {
    var wr := w.writers[id];
    var all := GenericData(id, wr.def);
    assert all[..wr.generics + 1] == all[..wr.generics] + [all[wr.generics]];
  }

  lemma OnAddGeneric(w: World, step: Step)
    requires Writers(w) && Enabled(w, step) && step.AddGeneric?
    ensures Writers(Do(w, step))
  {
    hide Written, GenericData;
    var w' := Do(w, step);
    assert Written(w, step.id);
    GenericWritten(w, step.id);
    forall id | id in w'.writers
      ensures Written(w', id)
    {
      if id != step.id {
        KeepsWritten(w, w', id);
      }
    }
  }

  lemma PublishedWritten(w: World, step: Step, id: JobId)
    requires Writers(w) && Enabled(w, step) && step.Publish? && id in w.writers
    ensures Written(Do(w, step), id)
  {
    assert Written(w, id);
    if id != step.id {
      KeepsWritten(w, Do(w, step), id);
    }
  }

  lemma OnPublish(w: World, step: Step)
    requires Writers(w) && Enabled(w, step) && step.Publish?
    ensures Writers(Do(w, step))
  {
    hide Written;
    forall id | id in w.writers
      ensures Written(Do(w, step), id)
    {
      PublishedWritten(w, step, id);
    }
  }

  predicate AdderStep(step: Step)
  {
    step.Tick? || step.BeginAdd? || step.AddParam? || step.AddGeneric? || step.Publish?
  }

  lemma AdderRest(w: World, step: Step)
    requires Inv(w) && Enabled(w, step) && AdderStep(step)
    ensures var w' := Do(w, step);
            Calls(w') && Held(w') && Published(w') && Leases(w') && Exclusive(w') && Timed(w')
  {
    hide Writers, Calls, Held, Published, Leases, Exclusive, Timed;
    KeepsRest(w, Do(w, step));
  }

  lemma OnAdder(w: World, step: Step)
    requires Inv(w) && Enabled(w, step) && AdderStep(step)
    ensures Inv(Do(w, step))
  {
    hide Writers, Calls, Held, Published, Leases, Exclusive, Timed;
    AdderRest(w, step);
    match step
    case Tick(_) => KeepsWriters(w, Do(w, step));
    case BeginAdd(_, _, _) => OnBeginAdd(w, step);
    case AddParam(_) => OnAddParam(w, step);
    case AddGeneric(_) => OnAddGeneric(w, step);
    case Publish(_) => OnPublish(w, step);
  }

  // ----- managers -----

  /** A call's step outside the tables keeps all but the call itself. */
  lemma OnCall(w: World, w': World, guid: Guid)
    requires Inv(w) && guid in w'.calls && w' == w.(calls := w.calls[guid := w'.calls[guid]])
    requires CallOk(w', guid)
    requires guid in w.calls && Past(w.calls[guid]) ==>
               Past(w'.calls[guid]) && w'.calls[guid].claimed == w.calls[guid].claimed
    ensures Inv(w')
  {
    hide Writers, Published, Leases, Exclusive, Timed, CallOk, IsClaim;
    KeepsWriters(w, w');
    KeepsPublished(w, w');
    KeepsLeases(w, w');
    KeepsExclusive(w, w');
    KeepsTimed(w, w');
    forall g | g in w'.calls
      ensures CallOk(w', g)
    {
      if g != guid {
        KeepsCall(w, w', g);
      }
    }
    forall id | id in w'.rows && w'.rows[id].lockGuid.Some?
      ensures HeldByClaimer(w', id)
    {
      assert HeldByClaimer(w, id);
    }
  }

  /** The tables hold the whole definition of every job whose adder is done. */
  lemma DoneMeansStored(w: World, id: JobId)
    requires Writers(w) && id in w.writers && w.writers[id].done
    ensures Stored(id, w.writers[id].def, w.params, w.generics)
  {
    assert Written(w, id);
    var def := w.writers[id].def;
    assert ParamData(id, def)[..|def.args|] == ParamData(id, def);
    assert GenericData(id, def)[..|def.genericTypes|] == GenericData(id, def);
  }

  function Defs(w: World): map<JobId, JobDef>
  {
    map id | id in w.writers :: w.writers[id].def
  }

  lemma HeldMeansStored(w: World, guid: Guid, id: JobId)
    requires Inv(w) && guid in w.calls && Past(w.calls[guid]) && id in Holding(w.rows, guid)
    ensures id in w.calls[guid].claimed && id in w.writers
    ensures Stored(id, w.writers[id].def, w.params, w.generics)
  {
    hide Writers, Leases, Exclusive, Timed, Stored;
    assert HeldByClaimer(w, id);
    assert CallOk(w, guid) && IsClaim(w.log, w.calls[guid].claimIndex);
    DoneMeansStored(w, id);
  }

  lemma RebuiltIsDelivered(w: World, c: Call, ids: seq<JobId>)
    requires forall i :: 0 <= i < |ids| ==> ids[i] in c.claimed && ids[i] in w.rows && ids[i] in w.writers
    requires Rebuilt(c.jobs, ids, w.rows, Defs(w))
    ensures Delivered(w, c)
  {
    hide ArgsReadable, GenericsReadable;
  }

  /** What a read returns. */
  lemma ReadDelivers(w: World, guid: Guid, ids: seq<JobId>, joined: seq<JoinedRow>)
    requires Inv(w) && Enabled(w, ReadRows(guid, ids, joined))
    ensures Delivered(w, w.calls[guid].(jobs := ExecuteJoinQuery(joined)))
  {
    var c := w.calls[guid];
    assert multiset(joined) == multiset(Product(ids, w.rows, w.params, w.generics));
    hide ExecuteJoinQuery, Product, Inv, Stored, Rebuilt, Delivered;
    forall i | 0 <= i < |ids|
      ensures ids[i] in c.claimed && ids[i] in w.rows && ids[i] in w.writers
      ensures Stored(ids[i], Defs(w)[ids[i]], w.params, w.generics)
    {
      assert ids[i] in Holding(w.rows, guid);
      HeldMeansStored(w, guid, ids[i]);
    }
    JoinReconstructs(joined, ids, w.rows, Defs(w), w.params, w.generics);
    RebuiltIsDelivered(w, c.(jobs := ExecuteJoinQuery(joined)), ids);
  }

  lemma OnEarlyCall(w: World, step: Step)
    requires Inv(w) && Enabled(w, step) && (step.BeginGet? || step.Sample?)
    ensures Inv(Do(w, step))
  {
    hide Writers, Held, Published, Leases, Exclusive, Timed, IsClaim;
    if step.Sample? {
      assert CallOk(w, step.guid);
    }
    OnCall(w, Do(w, step), step.guid);
  }

  lemma OnReadRows(w: World, step: Step)
    requires Inv(w) && Enabled(w, step) && step.ReadRows?
    ensures Inv(Do(w, step))
  {
    hide Writers, Held, Published, Leases, Exclusive, Timed, IsClaim, ExecuteJoinQuery, Product;
    var w' := Do(w, step);
    assert CallOk(w, step.guid);
    ReadDelivers(w, step.guid, step.ids, step.joined);
    OnCall(w, w', step.guid);
  }

  /** A row that a claim can take although the claim before took it was put back, or its lock has expired. */
  lemma LeaseRanOut(w: World, c: Call, p: nat, id: JobId)
    requires Leases(w) && IsClaim(w.log, p) && id in w.log[p].ids && !TakenBetween(w.log, id, p, |w.log|)
    requires id in EligibleFor(w, c)
    ensures RetriedBetween(w.log, id, p, |w.log|) || c.thresholdTime > w.log[p].lockTime + w.lockTimeout
  {
    assert Guarded(w, p, id);
    if RetriedSince(w.log, id, p) {
      var r :| p <= r < |w.log| && w.log[r] == MarkEvent(MarkRetry(id));
      assert r != p;
    }
  }

  lemma TakenStays(log: seq<Event>, e: Event, id: JobId, p: nat, q: nat)
    requires q <= |log|
    ensures TakenBetween(log + [e], id, p, q) <==> TakenBetween(log, id, p, q)
    ensures TakenBetween(log + [e], id, p, |log| + 1) <==>
              TakenBetween(log, id, p, |log|) || (p < |log| && e.ClaimEvent? && id in e.ids)
  {
    var log' := log + [e];
    assert forall r: nat :: r < |log| ==> (IsClaim(log', r) <==> IsClaim(log, r)) && log'[r] == log[r];
    assert log'[|log|] == e;
    if TakenBetween(log, id, p, |log|) {
      var r: nat :| p < r < |log| && IsClaim(log, r) && id in log[r].ids;
      assert IsClaim(log', r);
    }
    if p < |log| && e.ClaimEvent? && id in e.ids {
      assert IsClaim(log', |log|);
    }
    if TakenBetween(log', id, p, |log| + 1) {
      var r: nat :| p < r < |log| + 1 && IsClaim(log', r) && id in log'[r].ids;
      assert r < |log| ==> IsClaim(log, r);
    }
    if TakenBetween(log', id, p, q) {
      var r: nat :| p < r < q && IsClaim(log', r) && id in log'[r].ids;
      assert IsClaim(log, r);
    }
    if TakenBetween(log, id, p, q) {
      var r: nat :| p < r < q && IsClaim(log, r) && id in log[r].ids;
      assert IsClaim(log', r);
    }
  }

  lemma RetriedStays(log: seq<Event>, e: Event, id: JobId, p: nat, q: nat)
    requires q <= |log| && RetriedBetween(log, id, p, q)
    ensures RetriedBetween(log + [e], id, p, q)
  {
    var r :| p < r < q && r < |log| && log[r] == MarkEvent(MarkRetry(id));
    assert (log + [e])[r] == MarkEvent(MarkRetry(id));
  }

  lemma RetriedSinceStays(log: seq<Event>, e: Event, id: JobId, p: nat)
    requires RetriedSince(log, id, p)
    ensures RetriedSince(log + [e], id, p)
  {
    var r :| p <= r < |log| && log[r] == MarkEvent(MarkRetry(id));
    assert (log + [e])[r] == MarkEvent(MarkRetry(id));
  }

  /** Claims that were apart stay apart; a new claim is apart from the one before it. */
  lemma ClaimKeepsExclusive(w: World, w': World, e: Event)
    requires Exclusive(w) && w'.log == w.log + [e] && w'.lockTimeout == w.lockTimeout
    requires e.ClaimEvent? ==> forall p: nat, id ::
               IsClaim(w.log, p) && id in w.log[p].ids && id in e.ids && !TakenBetween(w.log, id, p, |w.log|) ==>
               RetriedBetween(w.log, id, p, |w.log|) || e.threshold > w.log[p].lockTime + w.lockTimeout
    ensures Exclusive(w')
  {
    hide TakenBetween, RetriedBetween;
    forall p: nat, q: nat, id | p < q && IsClaim(w'.log, p) && IsClaim(w'.log, q)
      ensures Apart(w', p, q, id)
    {
      assert IsClaim(w.log, p);
      TakenStays(w.log, e, id, p, q);
      if q < |w.log| {
        assert IsClaim(w.log, q) && Apart(w, p, q, id);
      }
      if RetriedBetween(w.log, id, p, q) {
        RetriedStays(w.log, e, id, p, q);
      }
    }
  }

  lemma ClaimKeepsTimed(w: World, w': World, e: Event)
    requires Timed(w) && w'.log == w.log + [e] && w'.clock == w.clock
    requires e.ClaimEvent? ==> e.lockTime <= e.threshold <= e.at == w.clock
    ensures Timed(w')
  {
    assert forall p: nat :: p < |w.log| ==> (IsClaim(w'.log, p) <==> IsClaim(w.log, p));
  }

  lemma ClaimKeepsLeases(w: World, step: Step)
    requires Leases(w) && Enabled(w, step) && step.ClaimRows?
    ensures Leases(Do(w, step))
  {
    hide TakenBetween, RetriedSince, IsTake;
    var w' := Do(w, step);
    var e := w'.log[|w.log|];
    forall p: nat, id | IsClaim(w'.log, p)
      ensures Guarded(w', p, id)
    {
      if p < |w.log| && id in w.log[p].ids {
        assert IsClaim(w.log, p) && Guarded(w, p, id);
        TakenStays(w.log, e, id, p, |w.log|);
        if RetriedSince(w.log, id, p) {
          RetriedSinceStays(w.log, e, id, p);
        }
      } else if p == |w.log| {
        ChosenAreRows(w, step, id);
      }
    }
  }

  lemma ChosenAreRows(w: World, step: Step, id: JobId)
    requires Enabled(w, step) && step.ClaimRows?
    ensures id in step.chosen ==> id in EligibleFor(w, w.calls[step.guid]) && id in w.rows
  {
  }

  lemma ClaimKeepsCalls(w: World, step: Step)
    requires Calls(w) && Held(w) && Enabled(w, step) && step.ClaimRows?
    ensures Calls(Do(w, step)) && Held(Do(w, step))
  {
    var w' := Do(w, step);
    forall guid | guid in w'.calls
      ensures CallOk(w', guid)
    {
      if guid != step.guid {
        KeepsCall(w, w', guid);
      } else {
        assert CallOk(w, guid);
      }
    }
    forall id | id in w'.rows && w'.rows[id].lockGuid.Some?
      ensures HeldByClaimer(w', id)
    {
      if id !in step.chosen {
        assert HeldByClaimer(w, id);
      }
    }
  }

  lemma ClaimKeepsPublished(w: World, step: Step)
    requires Writers(w) && Published(w) && Enabled(w, step) && step.ClaimRows?
    ensures Published(Do(w, step))
  {
    var w' := Do(w, step);
    forall p: nat, id | IsClaim(w'.log, p) && id in w'.log[p].ids
      ensures id in w'.writers && w'.writers[id].done
    {
      if p < |w.log| {
        assert IsClaim(w.log, p);
      } else {
        assert id in EligibleFor(w, w.calls[step.guid]);
      }
    }
  }

  lemma OnClaimRows(w: World, step: Step)
    requires Inv(w) && Enabled(w, step) && step.ClaimRows?
    ensures Inv(Do(w, step))
  {
    hide Writers, Held, Published, Leases, Exclusive, Timed, TakenBetween, RetriedBetween, EligibleFor, IsTake;
    var w' := Do(w, step);
    var c := w.calls[step.guid];
    var e := ClaimEvent(step.guid, step.chosen, c.lockTime, c.thresholdTime, w.clock);
    ClaimKeepsWriters(w, step);
    ClaimKeepsCalls(w, step);
    ClaimKeepsPublished(w, step);
    ClaimKeepsLeases(w, step);
    assert CallOk(w, step.guid);
    forall p: nat, id | IsClaim(w.log, p) && id in w.log[p].ids && id in e.ids && !TakenBetween(w.log, id, p, |w.log|)
      ensures RetriedBetween(w.log, id, p, |w.log|) || e.threshold > w.log[p].lockTime + w.lockTimeout
    {
      ChosenAreRows(w, step, id);
      LeaseRanOut(w, c, p, id);
    }
    ClaimKeepsExclusive(w, w', e);
    ClaimKeepsTimed(w, w', e);
  }

  lemma ClaimKeepsWriters(w: World, step: Step)
    requires Writers(w) && Enabled(w, step) && step.ClaimRows?
    ensures Writers(Do(w, step))
  {
    hide Written, IsTake;
    KeepsWriters(w, Do(w, step));
  }

  // ----- marks -----

  lemma MarkedIsDone(w: World, step: Step)
    requires Calls(w) && Published(w) && Enabled(w, step) && step.Apply?
    ensures step.mark.id in w.writers && w.writers[step.mark.id].done
  {
    assert CallOk(w, step.caller);
    var c := w.calls[step.caller];
    assert c.jobs[step.index].id in c.claimed;
    assert IsClaim(w.log, c.claimIndex);
  }

  lemma MarkKeepsLeases(w: World, step: Step)
    requires Leases(w) && Enabled(w, step) && step.Apply?
    ensures Leases(Do(w, step))
  {
    hide TakenBetween;
    var w' := Do(w, step);
    forall p: nat, id | IsClaim(w'.log, p)
      ensures Guarded(w', p, id)
    {
      assert IsClaim(w.log, p) && Guarded(w, p, id);
      TakenStays(w.log, MarkEvent(step.mark), id, p, |w.log|);
      if RetriedSince(w.log, id, p) {
        RetriedSinceStays(w.log, MarkEvent(step.mark), id, p);
      }
      if step.mark == MarkRetry(id) {
        assert w'.log[|w.log|] == MarkEvent(MarkRetry(id));
      }
    }
  }

  lemma MarkKeepsPublished(w: World, step: Step)
    requires Published(w) && Enabled(w, step) && step.Apply?
    ensures Published(Do(w, step))
  {
    var w' := Do(w, step);
    assert forall p: nat :: IsClaim(w'.log, p) ==> IsClaim(w.log, p) && w'.log[p] == w.log[p];
  }

  lemma OnApply(w: World, step: Step)
    requires Inv(w) && Enabled(w, step) && step.Apply?
    ensures Inv(Do(w, step))
  {
    hide Writers, Calls, Held, Published, Leases, Exclusive, Timed;
    var w' := Do(w, step);
    MarkedIsDone(w, step);
    MarkKeepsPublished(w, step);
    MarkKeepsLeases(w, step);
    ClaimKeepsExclusive(w, w', MarkEvent(step.mark));
    ClaimKeepsTimed(w, w', MarkEvent(step.mark));
    KeepsCalls(w, w');
    KeepsHeld(w, w');
    MarkKeepsWriters(w, step);
  }

  lemma MarkKeepsWriters(w: World, step: Step)
    requires Writers(w) && Enabled(w, step) && step.Apply?
    requires step.mark.id in w.writers && w.writers[step.mark.id].done
    ensures Writers(Do(w, step))
  {
    hide Written;
    KeepsWriters(w, Do(w, step));
  }

  lemma StepInv(w: World, step: Step)
    requires Inv(w) && Enabled(w, step)
    ensures Inv(Do(w, step))
  {
    hide Inv, Enabled, Do;
    match step
    case Tick(_) => OnAdder(w, step);
    case BeginAdd(_, _, _) => OnAdder(w, step);
    case AddParam(_) => OnAdder(w, step);
    case AddGeneric(_) => OnAdder(w, step);
    case Publish(_) => OnAdder(w, step);
    case BeginGet(_, _, _) => OnEarlyCall(w, step);
    case Sample(_) => OnEarlyCall(w, step);
    case ClaimRows(_, _) => OnClaimRows(w, step);
    case ReadRows(_, _, _) => OnReadRows(w, step);
    case Apply(_, _, _) => OnApply(w, step);
  }

  lemma {:induction false} RunInv(run: seq<World>, i: nat)
    requires IsRun(run) && i < |run|
    ensures Inv(run[i])
  {
    if i > 0 {
      RunInv(run, i - 1);
      hide Inv, Enabled, Do, Init;
      assert StepAt(run, i - 1);
      var step :| Enabled(run[i - 1], step) && run[i] == Do(run[i - 1], step);
      StepInv(run[i - 1], step);
    }
  }

  // ----- what every run keeps -----

  ghost predicate Got(w: World, guid: Guid, id: JobId)
  {
    guid in w.calls && w.calls[guid].phase.Returned? && exists i :: 0 <= i < |w.calls[guid].jobs| && w.calls[guid].jobs[i].id == id
  }

  /** Claims of one job further apart in the log are apart because those in between are. */
  lemma {:induction false} ClaimsAreApart(w: World, p: nat, q: nat, id: JobId)
    requires Exclusive(w) && Timed(w) && p < q && IsClaim(w.log, p) && IsClaim(w.log, q)
    requires id in w.log[p].ids && id in w.log[q].ids
    ensures RetriedBetween(w.log, id, p, q) || w.log[q].at > w.log[p].lockTime + w.lockTimeout
    decreases q
  {
    assert Apart(w, p, q, id);
    if TakenBetween(w.log, id, p, q) {
      var r: nat :| p < r < q && IsClaim(w.log, r) && id in w.log[r].ids;
      ClaimsAreApart(w, p, r, id);
      if RetriedBetween(w.log, id, p, r) {
        var x: nat :| p < x < r && x < |w.log| && w.log[x] == MarkEvent(MarkRetry(id));
        assert RetriedBetween(w.log, id, p, q);
      } else {
        assert w.log[r].at <= w.log[q].at;
      }
    }
  }

  lemma GotByClaim(w: World, guid: Guid, id: JobId)
    requires Inv(w) && Got(w, guid, id)
    ensures guid in w.calls
    ensures var p := w.calls[guid].claimIndex; IsClaim(w.log, p) && w.log[p].guid == guid && id in w.log[p].ids
  {
    assert CallOk(w, guid);
  }

  lemma ClaimsApart(w: World, p: nat, q: nat, id: JobId)
    requires Inv(w) && p < q && IsClaim(w.log, p) && IsClaim(w.log, q)
    requires id in w.log[p].ids && id in w.log[q].ids
    ensures RetriedBetween(w.log, id, p, q) || w.log[q].at > w.log[p].lockTime + w.lockTimeout
    ensures !TakenBetween(w.log, id, p, q) ==>
              RetriedBetween(w.log, id, p, q) || w.log[q].threshold > w.log[p].lockTime + w.lockTimeout
  {
    hide TakenBetween, RetriedBetween;
    assert Apart(w, p, q, id);
    ClaimsAreApart(w, p, q, id);
  }

  /**
   If two GetJobs calls have returned the same job, then between their claims the job was put back for
   retry, or the later claim came more than the lock timeout after the earlier call took the time.  If no
   other claim of the job lies in between, even the later call's threshold time was that late.
   */
  lemma ClaimExclusivity(run: seq<World>, i: nat, first: Guid, second: Guid, id: JobId)
    requires IsRun(run) && i < |run| && first != second
    requires Got(run[i], first, id) && Got(run[i], second, id)
    requires run[i].calls[first].claimIndex <= run[i].calls[second].claimIndex
    ensures var w := run[i];
            var p, q := w.calls[first].claimIndex, w.calls[second].claimIndex;
            && p < q && IsClaim(w.log, p) && IsClaim(w.log, q)
            && w.log[p].guid == first && w.log[q].guid == second
            && (RetriedBetween(w.log, id, p, q) || w.log[q].at > w.log[p].lockTime + w.lockTimeout)
            && (!TakenBetween(w.log, id, p, q) ==>
                  RetriedBetween(w.log, id, p, q) || w.log[q].threshold > w.log[p].lockTime + w.lockTimeout)
            && (w.log[p].at == w.log[p].lockTime ==>
                  RetriedBetween(w.log, id, p, q) || w.log[q].at - w.log[p].at > w.lockTimeout)
  {
    hide Inv, Got, TakenBetween, RetriedBetween;
    var w := run[i];
    RunInv(run, i);
    GotByClaim(w, first, id);
    GotByClaim(w, second, id);
    ClaimsApart(w, w.calls[first].claimIndex, w.calls[second].claimIndex, id);
  }

  lemma {:induction false} DistinctBound(jobs: seq<LoadedJob>, ids: set<JobId>)
    requires forall i, k :: 0 <= i < k < |jobs| ==> jobs[i].id != jobs[k].id
    requires forall i :: 0 <= i < |jobs| ==> jobs[i].id in ids
    ensures |jobs| <= |ids|
  {
    if jobs != [] {
      var n := |jobs| - 1;
      DistinctBound(jobs[..n], ids - {jobs[n].id});
    }
  }

  /** A call returns at most as many jobs as it asked for, and none twice. */
  lemma FetchIsBounded(run: seq<World>, i: nat, guid: Guid)
    requires IsRun(run) && i < |run| && guid in run[i].calls && run[i].calls[guid].phase.Returned?
    ensures var c := run[i].calls[guid];
            && |c.jobs| <= c.fetchSize
            && forall k, n :: 0 <= k < n < |c.jobs| ==> c.jobs[k].id != c.jobs[n].id
  {
    RunInv(run, i);
    assert CallOk(run[i], guid);
    DistinctBound(run[i].calls[guid].jobs, run[i].calls[guid].claimed);
  }

  /**
   However claims and reads interleave with insertions, a returned job was published with all its
   parameter and generic rows in place, and comes back as inserted if it can be read at all.
   */
  lemma SafePublication(run: seq<World>, i: nat, guid: Guid, n: nat)
    requires IsRun(run) && i < |run| && guid in run[i].calls && run[i].calls[guid].phase.Returned?
    requires n < |run[i].calls[guid].jobs|
    ensures var w, job := run[i], run[i].calls[guid].jobs[n];
            && job.id in w.writers && w.writers[job.id].done
            && Stored(job.id, w.writers[job.id].def, w.params, w.generics)
            && AsInserted(job, w.writers[job.id].def)
  {
    var w, c := run[i], run[i].calls[guid];
    RunInv(run, i);
    assert CallOk(w, guid) && IsClaim(w.log, c.claimIndex);
    DoneMeansStored(w, c.jobs[n].id);
  }
}
