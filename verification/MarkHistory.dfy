/**
 Histories of the marks one coordinator sends to its storage actor.

 Each attempt at a job should leave the marks "in progress" and then exactly one of success, failure or
 retry; a fetched job whose type is missing leaves a failure alone.  `Ordered` says that of a history.
 */
module MarkHistory {
  import opened Wrappers
  import opened JobTable

  /** The latest mark for job `j`. */
  function Last(ms: seq<Mark>, j: JobId): Option<Mark>
  {
    if ms == [] then None
    else if ms[|ms| - 1].id == j then Some(ms[|ms| - 1])
    else Last(ms[..|ms| - 1], j)
  }

  /** May `m` come after `prev`, the latest mark of the same job? */
  predicate Follows(prev: Option<Mark>, m: Mark)
  {
    match m
    case MarkInProgress(_) => prev.None? || prev.value.MarkRetry?
    case MarkSuccess(_) => prev.Some? && prev.value.MarkInProgress?
    case MarkRetry(_) => prev.Some? && prev.value.MarkInProgress?
    case MarkFailed(_) => prev.None? || prev.value.MarkRetry? || prev.value.MarkInProgress?
  }

  ghost predicate Ordered(ms: seq<Mark>)
  {
    forall i :: 0 <= i < |ms| ==> Follows(Last(ms[..i], ms[i].id), ms[i])
  }

  /** How often job `j` was dispatched: each dispatch sends one "in progress". */
  function Runs(ms: seq<Mark>, j: JobId): nat
  {
    if ms == [] then 0
    else Runs(ms[..|ms| - 1], j) + if ms[|ms| - 1] == MarkInProgress(j) then 1 else 0
  }

  function Retries(ms: seq<Mark>, j: JobId): nat
  {
    if ms == [] then 0
    else Retries(ms[..|ms| - 1], j) + if ms[|ms| - 1] == MarkRetry(j) then 1 else 0
  }

  /** All dispatches, whatever the job. */
  function AllRuns(ms: seq<Mark>): nat
  {
    if ms == [] then 0 else AllRuns(ms[..|ms| - 1]) + if ms[|ms| - 1].MarkInProgress? then 1 else 0
  }

  lemma Snoc(ms: seq<Mark>, m: Mark, j: JobId)
    ensures Last(ms + [m], j) == if m.id == j then Some(m) else Last(ms, j)
    ensures Retries(ms + [m], j) == Retries(ms, j) + if m == MarkRetry(j) then 1 else 0
    ensures Runs(ms + [m], j) == Runs(ms, j) + if m == MarkInProgress(j) then 1 else 0
  {
    assert (ms + [m])[..|ms|] == ms;
  }

  lemma OrderedSnoc(ms: seq<Mark>, m: Mark)
    requires Ordered(ms) && Follows(Last(ms, m.id), m)
    ensures Ordered(ms + [m])
  {
    var ms' := ms + [m];
    forall i | 0 <= i < |ms'|
      ensures Follows(Last(ms'[..i], ms'[i].id), ms'[i])
    {
      assert ms'[..i] == ms[..i];
      assert ms[..|ms|] == ms;
    }
  }

  lemma OrderedPrefix(ms: seq<Mark>, n: nat)
    requires Ordered(ms) && n <= |ms|
    ensures Ordered(ms[..n])
  {
    forall i | 0 <= i < n
      ensures Follows(Last(ms[..n][..i], ms[..n][i].id), ms[..n][i])
    {
      assert ms[..n][..i] == ms[..i];
    }
  }

  lemma {:induction false} RetriesGrow(ms: seq<Mark>, n: nat, j: JobId)
    requires n <= |ms|
    ensures Retries(ms[..n], j) <= Retries(ms, j)
  {
    if n == |ms| {
      assert ms[..n] == ms;
    } else {
      var front := ms[..|ms| - 1];
      RetriesGrow(front, n, j);
      assert front[..n] == ms[..n];
    }
  }

  lemma {:induction false} LastIsMember(ms: seq<Mark>, j: JobId)
    ensures Last(ms, j).Some? ==> Last(ms, j).value in ms && Last(ms, j).value.id == j
    ensures Last(ms, j).None? ==> forall m :: m in ms ==> m.id != j
  {
    if ms != [] {
      LastIsMember(ms[..|ms| - 1], j);
      assert ms == ms[..|ms| - 1] + [ms[|ms| - 1]];
    }
  }

  /** A job starts anew only after a retry, so it runs at most once more than it was retried. */
  lemma {:induction false} RunsBoundedByRetries(ms: seq<Mark>, j: JobId)
    requires Ordered(ms)
    ensures Runs(ms, j) <= Retries(ms, j) + 1
    ensures Last(ms, j).None? || Last(ms, j).value.MarkRetry? ==> Runs(ms, j) <= Retries(ms, j)
  {
    if ms != [] {
      var n := |ms| - 1;
      OrderedPrefix(ms, n);
      RunsBoundedByRetries(ms[..n], j);
      assert Follows(Last(ms[..n], ms[n].id), ms[n]);
    }
  }

  function Without(ms: seq<Mark>, j: JobId): (r: seq<Mark>)
    ensures forall m :: m in r <==> m in ms && m.id != j
  {
    if ms == [] then [] else
    var rest := Without(ms[..|ms| - 1], j);
    assert ms == ms[..|ms| - 1] + [ms[|ms| - 1]];
    if ms[|ms| - 1].id == j then rest else rest + [ms[|ms| - 1]]
  }

  lemma {:induction false} WithoutCounts(ms: seq<Mark>, j: JobId, k: JobId)
    ensures AllRuns(ms) == Runs(ms, j) + AllRuns(Without(ms, j))
    ensures k != j ==> Runs(Without(ms, j), k) == Runs(ms, k)
  {
    if ms != [] {
      var n := |ms| - 1;
      WithoutCounts(ms[..n], j, k);
      var rest := Without(ms[..n], j);
      assert (rest + [ms[n]])[..|rest|] == rest;
    }
  }

  /** The sum of `bound` over a finite set of jobs. */
  ghost function Total(jobs: set<JobId>, bound: JobId -> nat): nat
  {
    if jobs == {} then 0 else
    var j :| j in jobs;
    bound(j) + Total(jobs - {j}, bound)
  }

  /** If every job of a closed set runs at most `bound` times, the dispatches are bounded by the sum. */
  lemma {:induction false} DispatchesBounded(ms: seq<Mark>, jobs: set<JobId>, bound: JobId -> nat)
    requires forall m :: m in ms ==> m.id in jobs
    requires forall j :: j in jobs ==> Runs(ms, j) <= bound(j)
    ensures AllRuns(ms) <= Total(jobs, bound)
    decreases |jobs|
  {
    assert ms != [] ==> ms[0] in ms;
    if jobs != {} {
      var j :| j in jobs && Total(jobs, bound) == bound(j) + Total(jobs - {j}, bound);
      forall k | k in jobs - {j}
        ensures Runs(Without(ms, j), k) <= bound(k)
      {
        WithoutCounts(ms, j, k);
      }
      WithoutCounts(ms, j, j);
      DispatchesBounded(Without(ms, j), jobs - {j}, bound);
    }
  }
}
