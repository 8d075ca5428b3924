/**
 The queue table and the SQL statements that change it.

 A row is one job.  Every statement of the job queue manager is a single UPDATE, taken as atomic; a
 job's GUID identifies its row.  Times are integers on one shared clock, null columns are `None`, and a
 comparison with null is false, as in SQL.
 */
module JobTable {
  import opened Wrappers

  type JobId = nat
  type Guid = nat
  type Time = int

  /** The date that stands in for a null date while ordering. */
  const MIN_DATE: Time := 0

  datatype Status = Inserting | New | InProgress | Retry | Processed | Failed

  datatype Row = Row(
    queue: string,
    methodName: string,
    typeExecutedOn: string,
    status: Status,
    maxRetries: int,
    minRetryWait: int,
    retryCount: int,
    lastAttempt: Option<Time>,
    doNotExecuteBefore: Option<Time>,
    created: Option<Time>,
    lockClaimTime: Option<Time>,
    lockGuid: Option<Guid>)

  type Table = map<JobId, Row>

  /** The four status updates that the execution side sends to the store. */
  datatype Mark =
    | MarkInProgress(id: JobId)
    | MarkSuccess(id: JobId)
    | MarkFailed(id: JobId)
    | MarkRetry(id: JobId)

  function StatusOf(m: Mark): Status
  {
    match m
    case MarkInProgress(_) => InProgress
    case MarkSuccess(_) => Processed
    case MarkFailed(_) => Failed
    case MarkRetry(_) => Retry
  }

  /** What the UPDATE of a mark does to the row it hits. */
  function MarkRow(m: Mark, r: Row, now: Time): Row
  {
    match m
    case MarkInProgress(_) => r.(status := InProgress, lockClaimTime := None, lastAttempt := Some(now))
    case MarkSuccess(_) => r.(status := Processed, lockClaimTime := None)
    case MarkFailed(_) => r.(status := Failed, lockClaimTime := None)
    case MarkRetry(_) =>
      r.(retryCount := r.retryCount + 1, status := Retry, lastAttempt := Some(now), lockClaimTime := None)
  }

  /** `UPDATE ... WHERE JobGuid = id`: no row, no effect. */
  function ApplyMark(t: Table, m: Mark, now: Time): Table
  {
    if m.id in t then t[m.id := MarkRow(m, t[m.id], now)] else t
  }

  /** A mark changes the row it names, and in that row the status, the count, the times and nothing else. */
  lemma MarkedExactly(t: Table, m: Mark, now: Time)
    ensures var t' := ApplyMark(t, m, now);
            && t'.Keys == t.Keys
            && (forall j :: j in t && j != m.id ==> t'[j] == t[j])
            && (m.id in t ==> MarkedBy(m, t[m.id], t'[m.id], now))
  {
  }

  /** Between `r` and `r'` lies the mark `m`, made at the time `now`. */
  predicate MarkedBy(m: Mark, r: Row, r': Row, now: Time)
  {
    && r'.status == (match m case MarkInProgress(_) => InProgress case MarkSuccess(_) => Processed
                             case MarkFailed(_) => Failed case MarkRetry(_) => Retry)
    && r'.retryCount - r.retryCount == (if m.MarkRetry? then 1 else 0)
    && (m.MarkInProgress? || m.MarkRetry? ==> r'.lastAttempt == Some(now))
    && (m.MarkSuccess? || m.MarkFailed? ==> r'.lastAttempt == r.lastAttempt)
    && r'.lockClaimTime.None? && r'.lockGuid == r.lockGuid
    && SameJob(r, r')
  }

  /** The columns that an inserted job keeps for good. */
  predicate SameJob(r: Row, r': Row)
  {
    && r'.queue == r.queue && r'.methodName == r.methodName && r'.typeExecutedOn == r.typeExecutedOn
    && r'.maxRetries == r.maxRetries && r'.minRetryWait == r.minRetryWait
    && r'.doNotExecuteBefore == r.doNotExecuteBefore && r'.created == r.created
  }

  /** The WHERE clause of the claim. */
  predicate Claimable(r: Row, queues: set<string>, lockTime: Time, threshold: Time)
  {
    && r.queue in queues
    && (r.doNotExecuteBefore.None? || r.doNotExecuteBefore.value <= lockTime)
    && (r.status.New? ||
        (r.status.Retry? && r.maxRetries >= r.retryCount &&
         r.lastAttempt.Some? && r.lastAttempt.value + r.minRetryWait <= lockTime))
    && (r.lockClaimTime.None? || r.lockClaimTime.value < threshold)
  }

  function Eligible(t: Table, queues: set<string>, lockTime: Time, threshold: Time): set<JobId>
  {
    set j | j in t && Claimable(t[j], queues, lockTime, threshold)
  }

  /** Nothing keeps the row from being claimed: not its queue or status, not a time to wait for, not a lock. */
  predicate Due(r: Row, queues: set<string>, lockTime: Time, threshold: Time)
  {
    && r.queue in queues
    && (r.status == New || r.status == Retry)
    && (match r.doNotExecuteBefore case Some(start) => lockTime >= start case None => true)
    && (r.status == Retry ==>
          && r.retryCount <= r.maxRetries
          && match r.lastAttempt case Some(last) => lockTime - last >= r.minRetryWait case None => false)
    && (match r.lockClaimTime case Some(taken) => threshold > taken case None => true)
  }

  lemma EligibleAreDue(t: Table, queues: set<string>, lockTime: Time, threshold: Time)
    ensures forall j :: j in Eligible(t, queues, lockTime, threshold) <==> j in t && Due(t[j], queues, lockTime, threshold)
  {
  }

  function OrMin(d: Option<Time>): Time
  {
    if d.Some? then d.value else MIN_DATE
  }

  /** The fetch order: the later of creation and last attempt. */
  function MostRecentDate(r: Row): Option<Time>
  {
    if OrMin(r.created) > OrMin(r.lastAttempt) then r.created else r.lastAttempt
  }

  predicate NotAfter(a: Option<Time>, b: Option<Time>)
  {
    a.None? || (b.Some? && a.value <= b.value)
  }

  /** The date to order by is the later one of the two; a date before the least one there is does not occur. */
  lemma MostRecentIs(r: Row)
    ensures match (r.created, r.lastAttempt)
            case (None, None) => MostRecentDate(r) == None
            case (Some(a), None) => a > 0 ==> MostRecentDate(r) == Some(a)
            case (None, Some(b)) => b >= 0 ==> MostRecentDate(r) == Some(b)
            case (Some(a), Some(b)) => MostRecentDate(r) == Some(if b < a then a else b)
  {
  }

  /** `chosen` is a result of ORDER BY MostRecentDate and TAKE n; ties may fall either way. */
  ghost predicate IsTake(t: Table, eligible: set<JobId>, n: nat, chosen: set<JobId>)
    requires eligible <= t.Keys
  {
    && chosen <= eligible
    && |chosen| == (if n <= |eligible| then n else |eligible|)
    && forall c, e :: c in chosen && e in eligible && e !in chosen ==>
         NotAfter(MostRecentDate(t[c]), MostRecentDate(t[e]))
  }

  /** A due row is passed over only for enough others, none of which has a later date; no date comes first. */
  lemma PassedOver(t: Table, queues: set<string>, lockTime: Time, threshold: Time, n: nat, chosen: set<JobId>, e: JobId)
    requires IsTake(t, Eligible(t, queues, lockTime, threshold), n, chosen)
    requires e in t && Due(t[e], queues, lockTime, threshold) && e !in chosen
    ensures |chosen| == n
    ensures forall c :: c in chosen && MostRecentDate(t[c]).Some? ==>
              MostRecentDate(t[e]).Some? && MostRecentDate(t[c]).value <= MostRecentDate(t[e]).value
  {
    var eligible := Eligible(t, queues, lockTime, threshold);
    EligibleAreDue(t, queues, lockTime, threshold);
    if |chosen| == |eligible| {
      AllChosen(chosen, eligible);
    }
  }

  lemma AllChosen(chosen: set<JobId>, eligible: set<JobId>)
    requires chosen <= eligible && |chosen| == |eligible|
    ensures chosen == eligible
  {
    assert |eligible - chosen| == |eligible| - |chosen| == 0;
  }

  /** The claiming UPDATE: it writes the caller's GUID and lock time on the chosen rows. */
  function Claim(t: Table, chosen: set<JobId>, guid: Guid, lockTime: Time): Table
  {
    map j | j in t ::
      if j in chosen then t[j].(lockGuid := Some(guid), lockClaimTime := Some(lockTime)) else t[j]
  }

  /** The rows that the reading query of GetJobs selects. */
  function Holding(t: Table, guid: Guid): set<JobId>
  {
    set j | j in t && t[j].lockGuid == Some(guid)
  }

  /** With a GUID that no row carries yet, the read finds exactly the rows that were claimed. */
  lemma ClaimedAreHeld(t: Table, chosen: set<JobId>, guid: Guid, lockTime: Time)
    requires chosen <= t.Keys
    requires Holding(t, guid) == {}
    ensures Holding(Claim(t, chosen, guid, lockTime), guid) == chosen
  {
    var t' := Claim(t, chosen, guid, lockTime);
    forall j
      ensures j in Holding(t', guid) <==> j in chosen
    {
      if j in t && j !in chosen {
        assert j !in Holding(t, guid);
      }
    }
  }

  lemma PickFirst(t: Table, s: set<JobId>) returns (first: JobId)
    requires s <= t.Keys && s != {}
    ensures first in s
    ensures forall e :: e in s ==> NotAfter(MostRecentDate(t[first]), MostRecentDate(t[e]))
  {
    first :| first in s;
    if s != {first} {
      var other := PickFirst(t, s - {first});
      if !NotAfter(MostRecentDate(t[first]), MostRecentDate(t[other])) {
        first := other;
      }
    }
  }

  /** The claim's subquery always has a result. */
  lemma {:induction false} TakeExists(t: Table, eligible: set<JobId>, n: nat)
    requires eligible <= t.Keys
    ensures exists chosen :: IsTake(t, eligible, n, chosen)
    decreases n
  {
    if n == 0 || eligible == {} {
      assert IsTake(t, eligible, n, {});
    } else {
      var first := PickFirst(t, eligible);
      var rest := eligible - {first};
      TakeExists(t, rest, n - 1);
      var chosen :| IsTake(t, rest, n - 1, chosen);
      assert IsTake(t, eligible, n, chosen + {first});
    }
  }
}
