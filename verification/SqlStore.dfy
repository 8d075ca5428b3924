/**
 The SQL store's classes: the manager that claims, reads and marks, the adder, and the storage actor in
 front of the manager.

 What a database chooses on its own comes in as parameters: which of several equally old rows the claim
 takes, and in which order a query returns its rows.
 */
module SqlStore {
  import opened Wrappers
  import opened Sequences
  import opened JobTable
  import opened JobJoin
  import opened Messages

  /** The three tables, as one process sees them while it runs alone. */
  class Tables {
    var rows: Table
    var params: seq<ParamRow>
    var generics: seq<GenericRow>

    constructor ()
      ensures rows == map[] && params == [] && generics == []
    {
      rows := map[];
      params := [];
      generics := [];
    }
  }

  /** A GetJobs call's clock readings and fresh GUID, and what the database answers. */
  datatype Answer = Answer(
    guid: Guid,
    lockTime: Time,
    threshold: Time,
    chosen: set<JobId>,
    ids: seq<JobId>,
    joined: seq<JoinedRow>)

  /** The answer is one the database may give. */
  ghost predicate Answers(a: Answer, rows: Table, params: seq<ParamRow>, generics: seq<GenericRow>,
                          queues: set<string>, fetchSize: nat)
  {
    && Holding(rows, a.guid) == {}
    && IsTake(rows, Eligible(rows, queues, a.lockTime, a.threshold), fetchSize, a.chosen)
    && Enumerates(a.ids, Holding(Claim(rows, a.chosen, a.guid, a.lockTime), a.guid))
    && multiset(a.joined) ==
         multiset(Product(a.ids, Claim(rows, a.chosen, a.guid, a.lockTime), params, generics))
  }

  /** Every row of the claim comes back once, claimed; nothing else does. */
  ghost predicate Fetches(jobs: seq<LoadedJob>, rows: Table, chosen: set<JobId>)
  {
    && |jobs| == |chosen|
    && (forall i, k :: 0 <= i < k < |jobs| ==> jobs[i].id != jobs[k].id)
    && forall i :: 0 <= i < |jobs| ==> jobs[i].id in chosen && jobs[i].id in rows && jobs[i].meta == rows[jobs[i].id]
  }

  /** No row comes or goes, and only row `id` may have changed. */
  ghost predicate OnlyRow(before: Table, after: Table, id: JobId)
  {
    before.Keys == after.Keys && forall j :: j in before && j != id ==> after[j] == before[j]
  }

  /** The call's lock is on the rows it chose, which were due, and nothing else has changed. */
  ghost predicate Locked(before: Table, after: Table, queues: set<string>, a: Answer)
  {
    && before.Keys == after.Keys && a.chosen <= before.Keys
    && (forall j :: j in a.chosen ==>
          && Due(before[j], queues, a.lockTime, a.threshold)
          && after[j] == before[j].(lockGuid := Some(a.guid), lockClaimTime := Some(a.lockTime)))
    && forall j :: j in before && j !in a.chosen ==> after[j] == before[j]
  }

  /** A due row was passed over only for `fetchSize` others, none of which has a later date. */
  ghost predicate OldestFirst(before: Table, queues: set<string>, fetchSize: nat, a: Answer)
  {
    forall e :: e in before && Due(before[e], queues, a.lockTime, a.threshold) && e !in a.chosen ==>
      && |a.chosen| == fetchSize
      && forall c :: c in a.chosen && c in before && MostRecentDate(before[c]).Some? ==>
           MostRecentDate(before[e]).Some? && MostRecentDate(before[c]).value <= MostRecentDate(before[e]).value
  }

  lemma Claims(rows: Table, queues: set<string>, fetchSize: nat, a: Answer)
    requires IsTake(rows, Eligible(rows, queues, a.lockTime, a.threshold), fetchSize, a.chosen)
    ensures Locked(rows, Claim(rows, a.chosen, a.guid, a.lockTime), queues, a)
    ensures OldestFirst(rows, queues, fetchSize, a)
    ensures |a.chosen| <= fetchSize
  {
    EligibleAreDue(rows, queues, a.lockTime, a.threshold);
    forall e | e in rows && Due(rows[e], queues, a.lockTime, a.threshold) && e !in a.chosen
      ensures |a.chosen| == fetchSize
      ensures forall c :: c in a.chosen && MostRecentDate(rows[c]).Some? ==>
                MostRecentDate(rows[e]).Some? && MostRecentDate(rows[c]).value <= MostRecentDate(rows[e]).value
    {
      PassedOver(rows, queues, a.lockTime, a.threshold, fetchSize, a.chosen, e);
    }
  }

  class BaseSqlJobQueueManager {
    const tables: Tables

    constructor (tables: Tables)
      ensures this.tables == tables
    {
      this.tables := tables;
    }

    method MarkJobSuccess(id: JobId)
      modifies tables`rows
      ensures OnlyRow(old(tables.rows), tables.rows, id)
      ensures id in tables.rows ==>
                tables.rows[id] == old(tables.rows[id]).(status := Processed, lockClaimTime := None)
      ensures tables.rows == ApplyMark(old(tables.rows), MarkSuccess(id), 0)
    {
      if id in tables.rows {
        tables.rows := tables.rows[id := tables.rows[id].(status := Processed, lockClaimTime := None)];
      }
    }

    method MarkJobFailed(id: JobId)
      modifies tables`rows
      ensures OnlyRow(old(tables.rows), tables.rows, id)
      ensures id in tables.rows ==>
                tables.rows[id] == old(tables.rows[id]).(status := Failed, lockClaimTime := None)
      ensures tables.rows == ApplyMark(old(tables.rows), MarkFailed(id), 0)
    {
      if id in tables.rows {
        tables.rows := tables.rows[id := tables.rows[id].(status := Failed, lockClaimTime := None)];
      }
    }

    method MarkJobInProgress(id: JobId, now: Time)
      modifies tables`rows
      ensures OnlyRow(old(tables.rows), tables.rows, id)
      ensures id in tables.rows ==>
                tables.rows[id] ==
                old(tables.rows[id]).(status := InProgress, lockClaimTime := None, lastAttempt := Some(now))
      ensures tables.rows == ApplyMark(old(tables.rows), MarkInProgress(id), now)
    {
      if id in tables.rows {
        var r := tables.rows[id];
        tables.rows := tables.rows[id := r.(status := InProgress, lockClaimTime := None, lastAttempt := Some(now))];
      }
    }

    /** The caller's `lastAttempt` is ignored in favour of the present time. */
    method MarkJobInRetryAndIncrement(id: JobId, lastAttempt: Option<Time>, now: Time)
      modifies tables`rows
      ensures OnlyRow(old(tables.rows), tables.rows, id)
      ensures id in tables.rows ==>
                var r := old(tables.rows[id]);
                tables.rows[id] ==
                r.(status := Retry, retryCount := r.retryCount + 1, lastAttempt := Some(now), lockClaimTime := None)
      ensures tables.rows == ApplyMark(old(tables.rows), MarkRetry(id), now)
    {
      if id in tables.rows {
        var r := tables.rows[id];
        tables.rows := tables.rows[id := r.(retryCount := r.retryCount + 1, status := Retry,
                                            lastAttempt := Some(now), lockClaimTime := None)];
      }
    }

    /**
     Undisturbed, the call returns exactly the rows it claimed: the `fetchSize` oldest of those that are due, or
     all there are.
     */
    method GetJobs(queues: set<string>, fetchSize: nat, a: Answer) returns (jobs: seq<LoadedJob>)
      requires Answers(a, tables.rows, tables.params, tables.generics, queues, fetchSize)
      modifies tables`rows
      ensures tables.rows == Claim(old(tables.rows), a.chosen, a.guid, a.lockTime)
      ensures jobs == ExecuteJoinQuery(a.joined)
      ensures Fetches(jobs, tables.rows, a.chosen)
      ensures Locked(old(tables.rows), tables.rows, queues, a) && |a.chosen| <= fetchSize
      ensures OldestFirst(old(tables.rows), queues, fetchSize, a)
    {
      Claims(tables.rows, queues, fetchSize, a);
      ClaimedAreHeld(tables.rows, a.chosen, a.guid, a.lockTime);
      tables.rows := map j | j in tables.rows ::
        if j in a.chosen then tables.rows[j].(lockGuid := Some(a.guid), lockClaimTime := Some(a.lockTime))
        else tables.rows[j];
      jobs := ExecuteJoinQuery(a.joined);
      ReadsChosen(a.joined, a.ids, tables.rows, tables.params, tables.generics, a.chosen);
    }
  }

  lemma ReadsOne(joined: seq<JoinedRow>, ids: seq<JobId>, t: Table, params: seq<ParamRow>,
                 generics: seq<GenericRow>, i: nat)
    requires forall k :: 0 <= k < |ids| ==> ids[k] in t
    requires multiset(joined) == multiset(Product(ids, t, params, generics))
    requires i < |ExecuteJoinQuery(joined)|
    ensures var job := ExecuteJoinQuery(joined)[i];
            && job.id in ids && job.meta == t[job.id] && job.id == FirstOfEach(RowId, joined)[i].id
  {
    hide Product, JoinOne, LoadedParams, LoadedGenerics;
    LoadedByFirst(joined, i);
    var first := FirstOfEach(RowId, joined)[i];
    var group := Group(joined, first.id);
    assert first in group;
    assert group[0] in group;
    assert group[0] in multiset(joined) && first in multiset(joined);
    ProductMember(ids, t, params, generics, group[0]);
    ProductMember(ids, t, params, generics, first);
  }

  lemma ReadsAll(joined: seq<JoinedRow>, ids: seq<JobId>, t: Table, params: seq<ParamRow>,
                 generics: seq<GenericRow>, id: JobId)
    requires forall k :: 0 <= k < |ids| ==> ids[k] in t
    requires multiset(joined) == multiset(Product(ids, t, params, generics))
    requires id in ids
    ensures exists i :: 0 <= i < |FirstOfEach(RowId, joined)| && FirstOfEach(RowId, joined)[i].id == id
  {
    hide Product, JoinOne;
    var r := JoinedRow(id, t[id], ParamSide(id, params)[0], GenericSide(id, generics)[0]);
    assert ParamSide(id, params)[0] in ParamSide(id, params) && GenericSide(id, generics)[0] in GenericSide(id, generics);
    ProductMember(ids, t, params, generics, r);
    assert r in multiset(joined);
    var n :| 0 <= n < |joined| && joined[n] == r;
    assert HasKey(RowId, joined, id);
    FirstsAreElements(RowId, joined, id);
    var i :| 0 <= i < |FirstOfEach(RowId, joined)| && RowId(FirstOfEach(RowId, joined)[i]) == id;
  }

  lemma {:induction false} Covers(jobs: seq<LoadedJob>, s: set<JobId>)
    requires forall i, k :: 0 <= i < k < |jobs| ==> jobs[i].id != jobs[k].id
    requires forall i :: 0 <= i < |jobs| ==> jobs[i].id in s
    requires forall id :: id in s ==> exists i :: 0 <= i < |jobs| && jobs[i].id == id
    ensures |jobs| == |s|
  {
    if jobs != [] {
      var n := |jobs| - 1;
      var s' := s - {jobs[n].id};
      forall id | id in s'
        ensures exists i :: 0 <= i < |jobs[..n]| && jobs[..n][i].id == id
      {
        var i :| 0 <= i < |jobs| && jobs[i].id == id;
        assert jobs[..n][i].id == id;
      }
      Covers(jobs[..n], s');
    } else {
      assert forall id :: id !in s;
    }
  }

  lemma ReadsChosen(joined: seq<JoinedRow>, ids: seq<JobId>, t: Table, params: seq<ParamRow>,
                    generics: seq<GenericRow>, chosen: set<JobId>)
    requires Enumerates(ids, chosen) && chosen <= t.Keys
    requires multiset(joined) == multiset(Product(ids, t, params, generics))
    ensures Fetches(ExecuteJoinQuery(joined), t, chosen)
  {
    hide Product;
    var jobs, firsts := ExecuteJoinQuery(joined), FirstOfEach(RowId, joined);
    assert |jobs| == |firsts|;
    hide ExecuteJoinQuery;
    forall i | 0 <= i < |jobs|
      ensures jobs[i].id in ids && jobs[i].meta == t[jobs[i].id] && jobs[i].id == RowId(firsts[i])
    {
      ReadsOne(joined, ids, t, params, generics, i);
    }
    FirstsAreDistinct(RowId, joined);
    forall id | id in chosen
      ensures exists i :: 0 <= i < |jobs| && jobs[i].id == id
    {
      ReadsAll(joined, ids, t, params, generics, id);
      var i :| 0 <= i < |firsts| && firsts[i].id == id;
      assert jobs[i].id == id;
    }
    Covers(jobs, chosen);
  }

  // ----- the adder -----

  /** A serialized job: the columns of its row, and what the side tables hold. */
  datatype SerializableOddJob = SerializableOddJob(
    jobId: JobId,
    queueName: string,
    methodName: string,
    typeExecutedOn: string,
    executionTime: Option<Time>,
    retry: Option<RetrySettings>,
    def: JobDef)

  datatype RetrySettings = RetrySettings(maxRetries: int, minRetryWait: int)

  ghost predicate Unused(t: Table, params: seq<ParamRow>, generics: seq<GenericRow>, id: JobId)
  {
    id !in t && (forall p :: p in params ==> p.guid != id) && (forall g :: g in generics ==> g.guid != id)
  }

  /** The row carries what the job was given, or no retries if it was given none. */
  predicate Describes(r: Row, job: SerializableOddJob)
  {
    && r.queue == job.queueName && r.methodName == job.methodName && r.typeExecutedOn == job.typeExecutedOn
    && r.doNotExecuteBefore == job.executionTime
    && (match job.retry
        case Some(settings) => r.maxRetries == settings.maxRetries && r.minRetryWait == settings.minRetryWait
        case None => r.maxRetries == 0 && r.minRetryWait == 0)
  }

  /** Nothing has happened to the row but its insertion, at the time `now`. */
  predicate Untouched(r: Row, now: Time)
  {
    && r.retryCount == 0 && r.lastAttempt.None? && r.created == Some(now)
    && r.lockClaimTime.None? && r.lockGuid.None?
  }

  /** The job is published, and the side tables hold its whole definition. */
  ghost predicate Added(t: Table, params: seq<ParamRow>, generics: seq<GenericRow>, job: SerializableOddJob, now: Time)
  {
    && job.jobId in t && t[job.jobId].status == New && Describes(t[job.jobId], job) && Untouched(t[job.jobId], now)
    && Stored(job.jobId, job.def, params, generics)
  }

  lemma AppendedIsStored(id: JobId, def: JobDef, params: seq<ParamRow>, generics: seq<GenericRow>)
    requires forall p :: p in params ==> p.guid != id
    requires forall g :: g in generics ==> g.guid != id
    ensures Stored(id, def, params + ParamData(id, def), generics + GenericData(id, def))
  {
    forall p | p in ParamData(id, def)
      ensures p.guid == id
    {
      var i :| 0 <= i < |def.args| && ParamData(id, def)[i] == p;
    }
  }

  lemma OthersStayStored(id: JobId, def: JobDef, other: JobId, otherDef: JobDef, params: seq<ParamRow>, generics: seq<GenericRow>)
    requires id != other && Stored(other, otherDef, params, generics)
    ensures Stored(other, otherDef, params + ParamData(id, def), generics + GenericData(id, def))
  {
    forall p | p in ParamData(id, def)
      ensures p.guid == id
    {
      var i :| 0 <= i < |def.args| && ParamData(id, def)[i] == p;
    }
  }

  lemma OthersStayUnused(id: JobId, def: JobDef, other: JobId, params: seq<ParamRow>, generics: seq<GenericRow>)
    requires id != other
    requires forall p :: p in params ==> p.guid != other
    requires forall g :: g in generics ==> g.guid != other
    ensures forall p :: p in params + ParamData(id, def) ==> p.guid != other
    ensures forall g :: g in generics + GenericData(id, def) ==> g.guid != other
  {
    forall p | p in ParamData(id, def)
      ensures p.guid == id
    {
      var i :| 0 <= i < |def.args| && ParamData(id, def)[i] == p;
    }
  }

  /** Adding a job takes nothing from the others. */
  lemma OthersStay(t: Table, t': Table, params: seq<ParamRow>, generics: seq<GenericRow>, job: SerializableOddJob)
    requires forall j :: j in t && j != job.jobId ==> j in t' && t'[j] == t[j]
    requires t'.Keys == t.Keys + {job.jobId}
    ensures var ps, gs := params + ParamData(job.jobId, job.def), generics + GenericData(job.jobId, job.def);
            && (forall other: SerializableOddJob, time :: other.jobId != job.jobId && Added(t, params, generics, other, time) ==>
                  Added(t', ps, gs, other, time))
            && forall id :: id != job.jobId && Unused(t, params, generics, id) ==> Unused(t', ps, gs, id)
    ensures Unused(t, params, generics, job.jobId) ==> job.jobId !in t
  {
    forall other: SerializableOddJob, time | other.jobId != job.jobId && Added(t, params, generics, other, time)
      ensures Stored(other.jobId, other.def, params + ParamData(job.jobId, job.def), generics + GenericData(job.jobId, job.def))
    {
      OthersStayStored(job.jobId, job.def, other.jobId, other.def, params, generics);
    }
    forall id | id != job.jobId && Unused(t, params, generics, id)
      ensures forall p :: p in params + ParamData(job.jobId, job.def) ==> p.guid != id
      ensures forall g :: g in generics + GenericData(job.jobId, job.def) ==> g.guid != id
    {
      OthersStayUnused(job.jobId, job.def, id, params, generics);
    }
  }

  class BaseSqlJobQueueAdder {
    const tables: Tables

    constructor (tables: Tables)
      ensures this.tables == tables
    {
      this.tables := tables;
    }

    /** The row goes in first, unclaimable; it is published only after the side rows. */
    method AddJobImpl(job: SerializableOddJob, now: Time)
      requires Unused(tables.rows, tables.params, tables.generics, job.jobId)
      modifies tables
      ensures Added(tables.rows, tables.params, tables.generics, job, now)
      ensures tables.rows.Keys == old(tables.rows).Keys + {job.jobId}
      ensures forall j :: j in old(tables.rows) ==> tables.rows[j] == old(tables.rows[j])
      ensures tables.params == old(tables.params) + ParamData(job.jobId, job.def)
      ensures tables.generics == old(tables.generics) + GenericData(job.jobId, job.def)
    {
      var paramData := ParamData(job.jobId, job.def);
      var jobGenParams := GenericData(job.jobId, job.def);
      var row := Row(
        job.queueName, job.methodName, job.typeExecutedOn, Inserting,
        if job.retry.None? then 0 else job.retry.value.maxRetries,
        if job.retry.None? then 0 else job.retry.value.minRetryWait,
        0, None, job.executionTime, Some(now), None, None);
      tables.rows := tables.rows[job.jobId := row];
      if |paramData| > 0 {
        tables.params := tables.params + paramData;
      }
      if |jobGenParams| > 0 {
        tables.generics := tables.generics + jobGenParams;
      }
      tables.rows := tables.rows[job.jobId := tables.rows[job.jobId].(status := New)];
      AppendedIsStored(job.jobId, job.def, old(tables.params), old(tables.generics));
    }

    /** One after another, with the time of each insertion. */
    method AddJobs(jobs: seq<SerializableOddJob>, times: seq<Time>)
      requires |times| == |jobs|
      requires forall i :: 0 <= i < |jobs| ==> Unused(tables.rows, tables.params, tables.generics, jobs[i].jobId)
      requires forall i, k :: 0 <= i < k < |jobs| ==> jobs[i].jobId != jobs[k].jobId
      modifies tables
      ensures forall i :: 0 <= i < |jobs| ==> Added(tables.rows, tables.params, tables.generics, jobs[i], times[i])
      ensures forall id :: id in tables.rows <==> id in old(tables.rows) || exists i :: 0 <= i < |jobs| && jobs[i].jobId == id
      ensures forall id :: id in old(tables.rows) ==> tables.rows[id] == old(tables.rows[id])
    {
      hide Added, Unused, ParamData, GenericData;
      for n := 0 to |jobs|
        invariant forall i :: 0 <= i < n ==> Added(tables.rows, tables.params, tables.generics, jobs[i], times[i])
        invariant forall i :: n <= i < |jobs| ==> Unused(tables.rows, tables.params, tables.generics, jobs[i].jobId)
        invariant forall id :: id in tables.rows <==> id in old(tables.rows) || exists i :: 0 <= i < n && jobs[i].jobId == id
        invariant forall id :: id in old(tables.rows) ==> tables.rows[id] == old(tables.rows[id])
      {
        ghost var rows, params, generics := tables.rows, tables.params, tables.generics;
        AddJobImpl(jobs[n], times[n]);
        OthersStay(rows, tables.rows, params, generics, jobs[n]);
      }
    }
  }

  // ----- the storage actor -----

  datatype Reply = Jobs(jobs: seq<LoadedJob>) | Down

  class JobQueueLayerActor {
    const jobQueue: BaseSqlJobQueueManager

    /** The replies sent so far, to whoever asked. */
    var replies: seq<Reply>

    constructor (jobQueue: BaseSqlJobQueueManager)
      ensures this.jobQueue == jobQueue && replies == []
    {
      this.jobQueue := jobQueue;
      replies := [];
    }

    /** Each mark is applied to the tables; only fetches and shutdowns are answered, in the order received. */
    method Receive(message: Message, queueName: string, a: Answer, now: Time) returns (handled: bool)
      requires message.GetJobs? ==> Answers(a, jobQueue.tables.rows, jobQueue.tables.params,
                                            jobQueue.tables.generics, {queueName}, message.fetchSize)
      modifies this, jobQueue.tables`rows
      ensures handled == (message.ShutDownQueues? || message.GetJobs? || message.MarkJob?)
      ensures message.MarkJob? ==>
                && jobQueue.tables.rows == ApplyMark(old(jobQueue.tables.rows), message.mark, now)
                && replies == old(replies)
      ensures message.GetJobs? ==>
                && jobQueue.tables.rows == Claim(old(jobQueue.tables.rows), a.chosen, a.guid, a.lockTime)
                && replies == old(replies) + [Jobs(ExecuteJoinQuery(a.joined))]
                && Fetches(ExecuteJoinQuery(a.joined), jobQueue.tables.rows, a.chosen)
      ensures !message.MarkJob? && !message.GetJobs? ==> jobQueue.tables.rows == old(jobQueue.tables.rows)
      ensures message.ShutDownQueues? ==> replies == old(replies) + [Down]
      ensures !handled ==> replies == old(replies)
    {
      if message.ShutDownQueues? {
        replies := replies + [Down];
      } else if message.GetJobs? {
        var jobs := jobQueue.GetJobs({queueName}, message.fetchSize, a);
        replies := replies + [Jobs(jobs)];
      } else if message.MarkJob? {
        match message.mark
        case MarkInProgress(id) => jobQueue.MarkJobInProgress(id, now);
        case MarkFailed(id) => jobQueue.MarkJobFailed(id);
        case MarkSuccess(id) => jobQueue.MarkJobSuccess(id);
        case MarkRetry(id) => jobQueue.MarkJobInRetryAndIncrement(id, None, now);
      } else {
        return false;
      }
      return true;
    }
  }
}
