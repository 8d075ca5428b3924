/**
 Counting what mailboxes and pending effects carry.  A count takes a job id, or `None` to count whatever
 the job.
 */
module Mailboxes {
  import opened Wrappers
  import opened JobTable
  import opened Messages
  import opened Coordinator
  import opened MarkHistory

  function One(b: bool): nat
  {
    if b then 1 else 0
  }

  predicate HasJob(m: Message)
  {
    m.JobSucceeded? || m.JobFailed? || m.ExecuteJobRequest?
  }

  predicate About(job: Job, k: Option<JobId>)
  {
    k.None? || job.id == k.value
  }

  /** Is the message part of job `k`'s way to a worker and back? */
  predicate Carries(m: Message, k: Option<JobId>)
  {
    HasJob(m) && About(m.job, k)
  }

  function CarriedIn(q: seq<Message>, k: Option<JobId>): nat
  {
    if q == [] then 0 else CarriedIn(q[..|q| - 1], k) + One(Carries(q[|q| - 1], k))
  }

  function CarriedBy(ws: seq<seq<Message>>, k: Option<JobId>): nat
  {
    if ws == [] then 0 else CarriedBy(ws[..|ws| - 1], k) + CarriedIn(ws[|ws| - 1], k)
  }

  /** The jobs that the pending effects will send to a worker. */
  function Told(es: seq<Effect>, k: Option<JobId>): nat
  {
    if es == [] then 0 else One(es[0].ToWorker? && About(es[0].job, k)) + Told(es[1..], k)
  }

  /** The marks that the pending effects will send to the store. */
  function MarksOf(es: seq<Effect>): seq<Mark>
  {
    if es == [] then [] else (if es[0].ToStore? then [es[0].mark] else []) + MarksOf(es[1..])
  }

  function MarksIn(q: seq<Message>): seq<Mark>
  {
    if q == [] then [] else (if q[0].MarkJob? then [q[0].mark] else []) + MarksIn(q[1..])
  }

  /** How many workers' answers to the shutdown are in the mailbox. */
  function Downs(q: seq<Message>): nat
  {
    if q == [] then 0 else Downs(q[..|q| - 1]) + One(q[|q| - 1].QueueShutDown?)
  }

  function ShutDowns(q: seq<Message>): nat
  {
    if q == [] then 0 else ShutDowns(q[..|q| - 1]) + One(q[|q| - 1].ShutDownQueues?)
  }

  /** The number of workers whose mailbox is not empty. */
  function Active(ws: seq<seq<Message>>): nat
  {
    if ws == [] then 0 else Active(ws[..|ws| - 1]) + One(ws[|ws| - 1] != [])
  }

  /** How often a job occurs in a list of jobs. */
  function Times(ids: seq<JobId>, j: JobId): nat
  {
    if ids == [] then 0 else Times(ids[..|ids| - 1], j) + One(ids[|ids| - 1] == j)
  }

  lemma TimesSnoc(ids: seq<JobId>, id: JobId, j: JobId)
    ensures Times(ids + [id], j) == Times(ids, j) + One(id == j)
  {
    assert (ids + [id])[..|ids|] == ids;
  }

  lemma InboxSnoc(q: seq<Message>, m: Message, k: Option<JobId>)
    ensures CarriedIn(q + [m], k) == CarriedIn(q, k) + One(Carries(m, k))
    ensures Downs(q + [m]) == Downs(q) + One(m.QueueShutDown?)
    ensures ShutDowns(q + [m]) == ShutDowns(q) + One(m.ShutDownQueues?)
  {
    assert (q + [m])[..|q|] == q;
  }

  lemma WithoutSnoc<T>(q: seq<T>, i: nat)
    requires i < |q|
    ensures i == |q| - 1 ==> q[..i] + q[i + 1..] == q[..|q| - 1]
    ensures i < |q| - 1 ==>
              && q[..|q| - 1][i] == q[i]
              && q[..i] + q[i + 1..] == (q[..|q| - 1][..i] + q[..|q| - 1][i + 1..]) + [q[|q| - 1]]
  {
  }

  lemma {:induction false} InboxWithout(q: seq<Message>, i: nat, k: Option<JobId>)
    requires i < |q|
    ensures CarriedIn(q, k) == CarriedIn(q[..i] + q[i + 1..], k) + One(Carries(q[i], k))
    ensures Downs(q) == Downs(q[..i] + q[i + 1..]) + One(q[i].QueueShutDown?)
    ensures ShutDowns(q) == ShutDowns(q[..i] + q[i + 1..]) + One(q[i].ShutDownQueues?)
  {
    hide Carries, One;
    var n := |q| - 1;
    WithoutSnoc(q, i);
    if i < n {
      InboxWithout(q[..n], i, k);
      InboxSnoc(q[..n][..i] + q[..n][i + 1..], q[n], k);
    }
  }

  lemma CarriedMember(q: seq<Message>, i: nat)
    requires i < |q| && HasJob(q[i])
    ensures CarriedIn(q, Some(q[i].job.id)) >= 1
  {
    InboxWithout(q, i, Some(q[i].job.id));
  }

  lemma {:induction false} WorkerChanged(ws: seq<seq<Message>>, w: nat, q: seq<Message>, k: Option<JobId>)
    requires w < |ws|
    ensures CarriedBy(ws[w := q], k) + CarriedIn(ws[w], k) == CarriedBy(ws, k) + CarriedIn(q, k)
    ensures Active(ws[w := q]) + One(ws[w] != []) == Active(ws) + One(q != [])
  {
    var n := |ws| - 1;
    if w == n {
      assert ws[w := q][..n] == ws[..n];
    } else {
      WorkerChanged(ws[..n], w, q, k);
      assert ws[w := q][..n] == ws[..n][w := q];
    }
  }

  lemma WorkerCarries(ws: seq<seq<Message>>, w: nat, i: nat)
    requires w < |ws| && i < |ws[w]| && HasJob(ws[w][i])
    ensures CarriedBy(ws, Some(ws[w][i].job.id)) >= 1
  {
    WorkerChanged(ws, w, [], Some(ws[w][i].job.id));
    CarriedMember(ws[w], i);
  }

  function Broadcasted(ws: seq<seq<Message>>): seq<seq<Message>>
  {
    seq(|ws|, i requires 0 <= i < |ws| => ws[i] + [ShutDownQueues])
  }

  lemma {:induction false} BroadcastCarries(ws: seq<seq<Message>>, k: Option<JobId>)
    ensures CarriedBy(Broadcasted(ws), k) == CarriedBy(ws, k)
    ensures Active(Broadcasted(ws)) == |ws|
  {
    if ws != [] {
      var n := |ws| - 1;
      BroadcastCarries(ws[..n], k);
      assert Broadcasted(ws)[..n] == Broadcasted(ws[..n]);
      InboxSnoc(ws[n], ShutDownQueues, k);
    }
  }

  lemma {:induction false} NothingActive(ws: seq<seq<Message>>, k: Option<JobId>)
    ensures Active(ws) == 0 <==> forall w :: 0 <= w < |ws| ==> ws[w] == []
    ensures Active(ws) == 0 ==> CarriedBy(ws, k) == 0
  {
    if ws != [] {
      NothingActive(ws[..|ws| - 1], k);
    }
  }

  lemma {:induction false} NoneCarried(q: seq<Message>, k: Option<JobId>)
    requires forall i :: 0 <= i < |q| ==> !HasJob(q[i])
    ensures CarriedIn(q, k) == 0
  {
    if q != [] {
      NoneCarried(q[..|q| - 1], k);
    }
  }

  lemma {:induction false} NoDowns(q: seq<Message>)
    ensures Downs(q) == 0 <==> forall i :: 0 <= i < |q| ==> !q[i].QueueShutDown?
    ensures ShutDowns(q) == 0 <==> forall i :: 0 <= i < |q| ==> !q[i].ShutDownQueues?
  {
    if q != [] {
      NoDowns(q[..|q| - 1]);
    }
  }

  lemma Tail<T>(a: seq<T>, b: seq<T>)
    requires a != []
    ensures a + b != [] && (a + b)[0] == a[0] && (a + b)[1..] == a[1..] + b
  {
  }

  lemma {:induction false} MarksConcat(a: seq<Effect>, b: seq<Effect>)
    ensures MarksOf(a + b) == MarksOf(a) + MarksOf(b)
  {
    if a == [] {
      assert a + b == b;
    } else {
      MarksConcat(a[1..], b);
      Tail(a, b);
    }
  }

  lemma {:induction false} ToldConcat(a: seq<Effect>, b: seq<Effect>, k: Option<JobId>)
    ensures Told(a + b, k) == Told(a, k) + Told(b, k)
  {
    hide About;
    if a == [] {
      assert a + b == b;
    } else {
      ToldConcat(a[1..], b, k);
      Tail(a, b);
    }
  }

  lemma EffectsConcat(a: seq<Effect>, b: seq<Effect>, k: Option<JobId>)
    ensures MarksOf(a + b) == MarksOf(a) + MarksOf(b)
    ensures Told(a + b, k) == Told(a, k) + Told(b, k)
  {
    MarksConcat(a, b);
    ToldConcat(a, b, k);
  }

  lemma {:induction false} MarksInSnoc(q: seq<Message>, m: Message)
    ensures MarksIn(q + [m]) == MarksIn(q) + if m.MarkJob? then [m.mark] else []
  {
    if q == [] {
      assert q + [m] == [m];
      assert [m][1..] == [];
    } else {
      MarksInSnoc(q[1..], m);
      assert (q + [m])[1..] == q[1..] + [m];
    }
  }

  lemma {:induction false} ToldMember(es: seq<Effect>, i: nat)
    requires i < |es| && es[i].ToWorker?
    ensures Told(es, Some(es[i].job.id)) >= 1
  {
    if i > 0 {
      ToldMember(es[1..], i - 1);
    }
  }

  lemma {:induction false} MarksOfMember(es: seq<Effect>, m: Mark)
    requires m in MarksOf(es)
    ensures ToStore(m) in es
  {
    if es[0] != ToStore(m) {
      MarksOfMember(es[1..], m);
    }
  }

  // ----- what a dispatch promises -----

  ghost predicate Distinct(fs: seq<Fetched>)
  {
    forall i, k :: 0 <= i < k < |fs| ==> fs[i].job.id != fs[k].job.id
  }

  /** May job `j` be dispatched after the history `ms`? */
  predicate Ready(ms: seq<Mark>, j: JobId)
  {
    Last(ms, j).None? || Last(ms, j).value.MarkRetry?
  }

  predicate Running(ms: seq<Mark>, j: JobId)
  {
    Last(ms, j) == Some(MarkInProgress(j))
  }

  function MarkFor(f: Fetched): Mark
  {
    if f.typeMissing then MarkFailed(f.job.id) else MarkInProgress(f.job.id)
  }

  lemma EffectsOfOne(f: Fetched, k: Option<JobId>)
    ensures MarksOf(EffectsFor(f)) == [MarkFor(f)]
    ensures Told(EffectsFor(f), k) == One(!f.typeMissing && About(f.job, k))
  {
    var es := EffectsFor(f);
    if f.typeMissing {
      assert es[1..] == [];
    } else {
      assert es[1..] == [ToStore(MarkInProgress(f.job.id))];
      assert es[1..][1..] == [];
      assert MarksOf(es[1..]) == [MarkInProgress(f.job.id)] && Told(es[1..], k) == 0;
    }
  }

  /** The last fetched job's effects come last. */
  lemma DispatchLast(fs: seq<Fetched>, k: Option<JobId>)
    requires fs != []
    ensures var es := DispatchEffects(fs[..|fs| - 1]);
            && MarksOf(DispatchEffects(fs)) == MarksOf(es) + [MarkFor(fs[|fs| - 1])]
            && Told(DispatchEffects(fs), k)
               == Told(es, k) + One(!fs[|fs| - 1].typeMissing && About(fs[|fs| - 1].job, k))
  {
    EffectsConcat(DispatchEffects(fs[..|fs| - 1]), EffectsFor(fs[|fs| - 1]), k);
    EffectsOfOne(fs[|fs| - 1], k);
  }

  lemma {:induction false} DispatchToldAll(fs: seq<Fetched>)
    ensures Told(DispatchEffects(fs), None) == DispatchCount(fs)
  {
    if fs != [] {
      DispatchToldAll(fs[..|fs| - 1]);
      DispatchLast(fs, None);
    }
  }

  ghost predicate AllReady(ms: seq<Mark>, fs: seq<Fetched>)
  {
    forall i :: 0 <= i < |fs| ==> Ready(ms, fs[i].job.id)
  }

  /** A job outside the batch is not touched by it. */
  lemma {:induction false} DispatchSparesOthers(ms: seq<Mark>, fs: seq<Fetched>, j: JobId)
    requires forall i :: 0 <= i < |fs| ==> fs[i].job.id != j
    ensures Last(ms + MarksOf(DispatchEffects(fs)), j) == Last(ms, j)
    ensures Told(DispatchEffects(fs), Some(j)) == 0
  {
    if fs == [] {
      assert ms + [] == ms;
    } else {
      var n := |fs| - 1;
      DispatchSparesOthers(ms, fs[..n], j);
      DispatchLast(fs, Some(j));
      var ms1 := ms + MarksOf(DispatchEffects(fs[..n]));
      assert ms + MarksOf(DispatchEffects(fs)) == ms1 + [MarkFor(fs[n])];
      Snoc(ms1, MarkFor(fs[n]), j);
    }
  }

  /**
   Dispatching a batch of distinct jobs that are all ready keeps the history in order, and the jobs that
   it sends to workers are exactly those that it starts.
   */
  lemma {:induction false} DispatchStarts(ms: seq<Mark>, fs: seq<Fetched>, j: JobId)
    requires Ordered(ms) && Distinct(fs) && AllReady(ms, fs)
    ensures Ordered(ms + MarksOf(DispatchEffects(fs)))
    ensures Retries(ms + MarksOf(DispatchEffects(fs)), j) == Retries(ms, j)
    ensures Runs(ms + MarksOf(DispatchEffects(fs)), j) == Runs(ms, j) + Told(DispatchEffects(fs), Some(j))
    ensures Told(DispatchEffects(fs), Some(j)) + One(Running(ms, j))
            == One(Running(ms + MarksOf(DispatchEffects(fs)), j))
  {
    if fs == [] {
      assert ms + [] == ms;
    } else {
      var n := |fs| - 1;
      var f := fs[n];
      var ms1 := ms + MarksOf(DispatchEffects(fs[..n]));
      DispatchStarts(ms, fs[..n], j);
      DispatchSparesOthers(ms, fs[..n], f.job.id);
      DispatchLast(fs, Some(j));
      assert ms + MarksOf(DispatchEffects(fs)) == ms1 + [MarkFor(f)];
      OrderedSnoc(ms1, MarkFor(f));
      Snoc(ms1, MarkFor(f), j);
    }
  }

  predicate Concerns(fs: seq<Fetched>, e: Effect)
  {
    || (e.ToWorker? && exists i :: 0 <= i < |fs| && fs[i].job == e.job)
    || (e.ToStore? && exists i :: 0 <= i < |fs| && fs[i].job.id == e.mark.id)
  }

  /** A dispatch only tells workers about fetched jobs, and only sends marks for them. */
  lemma {:induction false} DispatchConcernsFetched(fs: seq<Fetched>, e: Effect)
    requires e in DispatchEffects(fs)
    ensures Concerns(fs, e)
  {
    var n := |fs| - 1;
    if e in DispatchEffects(fs[..n]) {
      DispatchConcernsFetched(fs[..n], e);
      assert forall i :: 0 <= i < n ==> fs[..n][i] == fs[i];
    } else {
      assert e in EffectsFor(fs[n]);
    }
  }
}
