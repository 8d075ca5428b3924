/**
 The shell that starts queues and shuts them down: two dictionaries, one of coordinators and one of the
 timers that pulse them.

 Actors are numbered as they are created.  Whether a name is still taken, how an ask ends and whether the
 scheduler accepts the delays are parameters; an exception is an `Err`.
 */
module ExecutorShell {
  import opened Wrappers

  type ActorRef = nat

  datatype Error = NameTaken | UnexpectedResult | AskTimedOut | BadDelay | KeyNotFound

  /** How a blocking ask ends. */
  datatype Outcome = Expected | Unexpected | TimesOut

  /** What the shell does about one actor. */
  datatype Act = Created | Scheduled | Cancelled | AskedToShutDown | Poisoned

  /** On the books: configured, pulsed if it has a timer, not asked to shut down. */
  predicate Running(life: seq<Act>, hasTimer: bool)
  {
    life == if hasTimer then [Created, Scheduled] else [Created]
  }

  /** What a shutdown adds to the life of an actor. */
  function Ending(hasTimer: bool, answered: bool): seq<Act>
  {
    (if hasTimer then [Cancelled] else []) + [AskedToShutDown] + if answered then [Poisoned] else []
  }

  /** Off the books: never configured, or shut down once. */
  predicate Retired(life: seq<Act>)
  {
    || life == [Created]
    || life == [Created, AskedToShutDown]
    || life == [Created, AskedToShutDown, Poisoned]
    || life == [Created, Scheduled, Cancelled, AskedToShutDown]
    || life == [Created, Scheduled, Cancelled, AskedToShutDown, Poisoned]
  }

  function Acted(lives: seq<seq<Act>>, actor: ActorRef, acts: seq<Act>): seq<seq<Act>>
    requires actor < |lives|
  {
    lives[actor := lives[actor] + acts]
  }

  lemma ActedTwice(lives: seq<seq<Act>>, actor: ActorRef, first: seq<Act>, second: seq<Act>)
    requires actor < |lives|
    ensures |Acted(lives, actor, first)| == |lives|
    ensures Acted(Acted(lives, actor, first), actor, second) == Acted(lives, actor, first + second)
    ensures Acted(lives, actor, []) == lives
  {
    assert lives[actor] + first + second == lives[actor] + (first + second);
    assert lives[actor] + [] == lives[actor];
  }

  ghost predicate Owned(pool: map<string, ActorRef>, actor: ActorRef)
  {
    exists q :: q in pool && pool[q] == actor
  }

  /** Each queue has its own coordinator and a timer is that coordinator's; all other actors are done with. */
  ghost predicate Books(pool: map<string, ActorRef>, timers: map<string, ActorRef>, lives: seq<seq<Act>>)
  {
    && (forall q :: q in timers ==> q in pool && timers[q] == pool[q])
    && (forall p, q :: p in pool && q in pool && p != q ==> pool[p] != pool[q])
    && (forall q :: q in pool ==> pool[q] < |lives| && Running(lives[pool[q]], q in timers))
    && (forall a :: 0 <= a < |lives| ==> Owned(pool, a) || Retired(lives[a]))
  }

  lemma BooksAfterFailure(pool: map<string, ActorRef>, timers: map<string, ActorRef>, lives: seq<seq<Act>>)
    requires Books(pool, timers, lives)
    ensures Books(pool, timers, lives + [[Created]])
  {
  }

  lemma OwnedAfterStart(pool: map<string, ActorRef>, queue: string, actor: ActorRef, a: ActorRef)
    requires queue !in pool && (Owned(pool, a) || a == actor)
    ensures Owned(pool[queue := actor], a)
  {
    if a == actor {
      assert pool[queue := actor][queue] == a;
    } else {
      var q :| q in pool && pool[q] == a;
      assert pool[queue := actor][q] == a;
    }
  }

  lemma BooksAfterStart(pool: map<string, ActorRef>, timers: map<string, ActorRef>, lives: seq<seq<Act>>,
                        queue: string, timed: bool)
    requires Books(pool, timers, lives) && queue !in pool
    ensures Books(pool[queue := |lives|], if timed then timers[queue := |lives|] else timers,
                  lives + [if timed then [Created, Scheduled] else [Created]])
  {
    var lives' := lives + [if timed then [Created, Scheduled] else [Created]];
    forall a | 0 <= a < |lives'|
      ensures Owned(pool[queue := |lives|], a) || Retired(lives'[a])
    {
      if a == |lives| || Owned(pool, a) {
        OwnedAfterStart(pool, queue, |lives|, a);
      }
    }
    hide Owned, Retired;
  }

  lemma OwnedAfterStop(pool: map<string, ActorRef>, queue: string, a: ActorRef)
    requires queue in pool && Owned(pool, a) && a != pool[queue]
    ensures Owned(Without(pool, {queue}), a)
  {
    var q :| q in pool && pool[q] == a;
    assert q in Without(pool, {queue}) && Without(pool, {queue})[q] == a;
  }

  lemma Ended(life: seq<Act>, hasTimer: bool, answered: bool)
    requires Running(life, hasTimer)
    ensures Retired(life + Ending(hasTimer, answered)) && Cancelled !in life
  {
  }

  lemma Endings()
    ensures Ending(true, true) == [Cancelled] + [AskedToShutDown] + [Poisoned]
    ensures Ending(true, false) == [Cancelled] + [AskedToShutDown]
    ensures Ending(false, true) == [AskedToShutDown] + [Poisoned]
    ensures Ending(false, false) == [AskedToShutDown]
  {
  }

  lemma BooksAfterStop(pool: map<string, ActorRef>, timers: map<string, ActorRef>, lives: seq<seq<Act>>,
                       queue: string, answered: bool)
    requires Books(pool, timers, lives) && queue in pool
    ensures var a := pool[queue];
            Books(Without(pool, {queue}), Without(timers, {queue}), Acted(lives, a, Ending(queue in timers, answered)))
  {
    hide Owned, Ending, Running, Retired;
    var lives' := Acted(lives, pool[queue], Ending(queue in timers, answered));
    forall a | 0 <= a < |lives|
      ensures Owned(Without(pool, {queue}), a) || Retired(lives'[a])
    {
      if a == pool[queue] {
        Ended(lives[a], queue in timers, answered);
      } else if Owned(pool, a) {
        OwnedAfterStop(pool, queue, a);
      }
    }
  }

  class BaseJobExecutorShell {
    var coordinatorPool: map<string, ActorRef>
    var cancelPulsePool: map<string, ActorRef>   // a timer is known by the actor it pulses
    var lives: seq<seq<Act>>                     // what was done about each actor

    ghost predicate Valid()
      reads this
    {
      Books(coordinatorPool, cancelPulsePool, lives)
    }

    constructor ()
      ensures Valid() && coordinatorPool == map[] && cancelPulsePool == map[] && lives == []
    {
      coordinatorPool, cancelPulsePool, lives := map[], map[], [];
    }

    method Do(actor: ActorRef, act: Act)
      requires actor < |lives|
      modifies this`lives
      ensures lives == Acted(old(lives), actor, [act])
    {
      lives := lives[actor := lives[actor] + [act]];
    }

    method StartJobQueue(queueName: string, nameTaken: bool, result: Outcome, delaysAccepted: bool)
      returns (r: Result<(), Error>)
      requires Valid()
      modifies this
      ensures Valid()
      ensures queueName in old(coordinatorPool) ==> r == Ok(()) && lives == old(lives)
      ensures queueName !in old(coordinatorPool) ==>
                r == if nameTaken then Err(NameTaken)
                     else if result.TimesOut? then Err(AskTimedOut)
                     else if result.Unexpected? then Err(UnexpectedResult)
                     else if !delaysAccepted then Err(BadDelay) else Ok(())
      ensures coordinatorPool ==
                if queueName !in old(coordinatorPool) && (r.Ok? || r == Err(BadDelay))
                then old(coordinatorPool)[queueName := |old(lives)|] else old(coordinatorPool)
      ensures cancelPulsePool ==
                if queueName !in old(coordinatorPool) && r.Ok?
                then old(cancelPulsePool)[queueName := |old(lives)|] else old(cancelPulsePool)
      ensures lives == old(lives) +
                if queueName in old(coordinatorPool) || nameTaken then []
                else [if r.Ok? then [Created, Scheduled] else [Created]]
    {
      hide Books;
      assert lives + [] == lives;
      if queueName !in coordinatorPool {
        if nameTaken {
          return Err(NameTaken);
        }
        var jobCoordinator := |lives|;
        BooksAfterFailure(coordinatorPool, cancelPulsePool, lives);
        BooksAfterStart(coordinatorPool, cancelPulsePool, lives, queueName, delaysAccepted);
        lives := lives + [[Created]];
        if result.TimesOut? {
          return Err(AskTimedOut);
        }
        if result.Unexpected? {
          return Err(UnexpectedResult);
        }
        coordinatorPool := coordinatorPool[queueName := jobCoordinator];
        if !delaysAccepted {
          return Err(BadDelay);
        }
        Do(jobCoordinator, Scheduled);
        assert [Created] + [Scheduled] == [Created, Scheduled];
        assert |lives| == |old(lives)| + 1 && lives[..jobCoordinator] == old(lives);
        assert lives[jobCoordinator] == [Created, Scheduled];
        assert lives == old(lives) + [[Created, Scheduled]];
        cancelPulsePool := cancelPulsePool[queueName := jobCoordinator];
      }
      return Ok(());
    }

    /**
     Whatever happens, both dictionaries forget the queue.  Its coordinator, if there is one, is asked to
     shut down, after its timer was cancelled; it is poisoned only if it answered in time.
     */
    method ShutDownQueue(queueName: string, result: Outcome) returns (r: Result<(), Error>)
      requires Valid()
      modifies this
      ensures Valid()
      ensures r == if queueName !in old(coordinatorPool) then Err(KeyNotFound)
                   else if result.TimesOut? then Err(AskTimedOut) else Ok(())
      ensures coordinatorPool == Without(old(coordinatorPool), {queueName})
      ensures cancelPulsePool == Without(old(cancelPulsePool), {queueName})
      ensures lives ==
                if queueName !in old(coordinatorPool) then old(lives) else
                var a := old(coordinatorPool)[queueName];
                Acted(old(lives), a, Ending(queueName in old(cancelPulsePool), r.Ok?))
    {
      if queueName in coordinatorPool {
        ghost var a := coordinatorPool[queueName];
        BooksAfterStop(coordinatorPool, cancelPulsePool, lives, queueName, !result.TimesOut?);
        Ended(lives[a], queueName in cancelPulsePool, true);
        Endings();
        ActedTwice(lives, a, [Cancelled], [AskedToShutDown]);
        ActedTwice(lives, a, [Cancelled] + [AskedToShutDown], [Poisoned]);
        ActedTwice(lives, a, [AskedToShutDown], [Poisoned]);
      }
      assert queueName in cancelPulsePool ==>
               queueName in coordinatorPool && coordinatorPool[queueName] == cancelPulsePool[queueName];
      ForgetNone(coordinatorPool, queueName);
      ForgetNone(cancelPulsePool, queueName);
      hide Books, Without, Running, Acted, Ending;
      if queueName in cancelPulsePool {
        var timer := cancelPulsePool[queueName];
        if Cancelled !in lives[timer] {
          Do(timer, Cancelled);
        }
      }
      if queueName in coordinatorPool {
        Do(coordinatorPool[queueName], AskedToShutDown);
      }
      if queueName !in coordinatorPool {
        r := Err(KeyNotFound);
      } else if result.TimesOut? {
        r := Err(AskTimedOut);
      } else {
        Do(coordinatorPool[queueName], Poisoned);
        r := Ok(());
      }
      cancelPulsePool := Without(cancelPulsePool, {queueName});
      coordinatorPool := Without(coordinatorPool, {queueName});
    }

    /**
     The queues with a timer are shut down one by one, in any order, until one does not answer; that one is
     shut down too.  A queue whose delays the scheduler refused has no timer and is passed over.
     */
    method Dispose(results: string -> Outcome) returns (r: Result<(), Error>, ghost done: set<string>)
      requires Valid()
      modifies this
      ensures Valid()
      ensures r == if AllAnswered(old(cancelPulsePool).Keys, results) then Ok(()) else Err(AskTimedOut)
      ensures r.Ok? ==> done == old(cancelPulsePool).Keys
      ensures r.Err? ==> exists last :: last in done && OnlyLast(done, results, last)
      ensures done <= old(cancelPulsePool).Keys
      ensures coordinatorPool == Without(old(coordinatorPool), done)
      ensures cancelPulsePool == Without(old(cancelPulsePool), done)
      ensures Stopped(old(coordinatorPool), done, results, old(lives), lives)
    {
      hide *;
      ghost var pool, timers, before := coordinatorPool, cancelPulsePool, lives;
      BooksOf();
      done := {};
      var keys := cancelPulsePool.Keys;
      StoppedNone(pool, timers, results, before);
      while keys != {}
        invariant Valid() && keys + done == timers.Keys
        invariant keys !! done
        invariant StoppedSoFar(pool, timers, done, results, before, coordinatorPool, cancelPulsePool, lives)
        invariant AllAnswered(done, results)
        decreases |keys|
      {
        var key :| key in keys;
        StoppedMore(pool, timers, done, results, before, coordinatorPool, cancelPulsePool, lives, key);
        var s := ShutDownQueue(key, results(key));
        Answered(done, results, key);
        Moved(keys, done, key);
        done := done + {key};
        if s.Err? {
          StoppedParts(pool, timers, done, results, before, coordinatorPool, cancelPulsePool, lives);
          return s, done;
        }
        keys := keys - {key};
      }
      StoppedParts(pool, timers, done, results, before, coordinatorPool, cancelPulsePool, lives);
      return Ok(()), done;
    }

    lemma BooksOf()
      requires Valid()
      ensures Books(coordinatorPool, cancelPulsePool, lives)
    {
    }
  }

  /** The coordinators of the queues in `done`, and no other actors, were shut down once since `before`. */
  ghost predicate Stopped(pool: map<string, ActorRef>, done: set<string>, results: string -> Outcome,
                          before: seq<seq<Act>>, after: seq<seq<Act>>)
  {
    && |after| == |before|
    && (forall q :: q in done ==> q in pool && pool[q] < |before|)
    && (forall q :: q in done ==> after[pool[q]] == before[pool[q]] + Ending(true, !results(q).TimesOut?))
    && forall a :: 0 <= a < |before| && (forall q :: q in done ==> pool[q] != a) ==> after[a] == before[a]
  }

  predicate AllAnswered(done: set<string>, results: string -> Outcome)
  {
    forall q :: q in done ==> !results(q).TimesOut?
  }

  predicate OnlyLast(done: set<string>, results: string -> Outcome, last: string)
  {
    results(last).TimesOut? && AllAnswered(done - {last}, results)
  }

  lemma Moved(keys: set<string>, done: set<string>, key: string)
    requires keys !! done && key in keys
    ensures keys - {key} + (done + {key}) == keys + done && keys - {key} !! done + {key}
    ensures |keys - {key}| < |keys|
  {
    assert keys == keys - {key} + {key};
  }

  lemma Answered(done: set<string>, results: string -> Outcome, key: string)
    requires AllAnswered(done, results) && key !in done
    ensures if results(key).TimesOut? then OnlyLast(done + {key}, results, key) else AllAnswered(done + {key}, results)
    ensures forall keys: set<string> :: results(key).TimesOut? && key in keys ==> !AllAnswered(keys, results)
  {
    assert done + {key} - {key} == done && key in done + {key};
  }

  ghost predicate Distinct(pool: map<string, ActorRef>, bound: nat)
  {
    && (forall q :: q in pool ==> pool[q] < bound)
    && forall p, q :: p in pool && q in pool && p != q ==> pool[p] != pool[q]
  }

  /** The queues in `done` have been shut down, and the books are otherwise as they were. */
  ghost predicate StoppedSoFar(pool: map<string, ActorRef>, timers: map<string, ActorRef>, done: set<string>,
                               results: string -> Outcome, before: seq<seq<Act>>,
                               pool': map<string, ActorRef>, timers': map<string, ActorRef>, lives: seq<seq<Act>>)
  {
    && Distinct(pool, |before|) && timers.Keys <= pool.Keys
    && pool' == Without(pool, done) && timers' == Without(timers, done)
    && Stopped(pool, done, results, before, lives)
  }

  lemma StoppedParts(pool: map<string, ActorRef>, timers: map<string, ActorRef>, done: set<string>,
                     results: string -> Outcome, before: seq<seq<Act>>,
                     pool': map<string, ActorRef>, timers': map<string, ActorRef>, lives: seq<seq<Act>>)
    requires StoppedSoFar(pool, timers, done, results, before, pool', timers', lives)
    ensures pool' == Without(pool, done) && timers' == Without(timers, done)
    ensures Stopped(pool, done, results, before, lives)
  {
  }

  lemma StoppedNone(pool: map<string, ActorRef>, timers: map<string, ActorRef>, results: string -> Outcome,
                    lives: seq<seq<Act>>)
    requires Books(pool, timers, lives)
    ensures StoppedSoFar(pool, timers, {}, results, lives, pool, timers, lives) && AllAnswered({}, results)
  {
    ForgetNone(pool, "");
    ForgetNone(timers, "");
  }

  lemma LifeEnded(pool: map<string, ActorRef>, done: set<string>, results: string -> Outcome,
                  before: seq<seq<Act>>, now: seq<seq<Act>>, key: string)
    requires Stopped(pool, done, results, before, now) && Distinct(pool, |before|) && key in pool && key !in done
    ensures pool[key] < |now|
    ensures Stopped(pool, done + {key}, results, before,
                    Acted(now, pool[key], Ending(true, !results(key).TimesOut?)))
  {
    hide Ending;
    var after := Acted(now, pool[key], Ending(true, !results(key).TimesOut?));
    forall a | 0 <= a < |before| && forall q :: q in done + {key} ==> pool[q] != a
      ensures after[a] == before[a]
    {
      assert key in done + {key} && forall q :: q in done ==> q in done + {key};
    }
  }

  /** Shutting down one more queue, with the outcome that ShutDownQueue promises. */
  lemma StoppedMore(pool: map<string, ActorRef>, timers: map<string, ActorRef>, done: set<string>,
                    results: string -> Outcome, before: seq<seq<Act>>,
                    pool': map<string, ActorRef>, timers': map<string, ActorRef>, lives: seq<seq<Act>>, key: string)
    requires StoppedSoFar(pool, timers, done, results, before, pool', timers', lives) && key in timers.Keys && key !in done
    ensures key in pool' && key in timers' && pool'[key] < |lives|
    ensures StoppedSoFar(pool, timers, done + {key}, results, before, Without(pool', {key}), Without(timers', {key}),
                         Acted(lives, pool'[key], Ending(true, !results(key).TimesOut?)))
  {
    hide Stopped, Ending, Acted;
    ForgetMore(pool, done, key);
    ForgetMore(timers, done, key);
    LifeEnded(pool, done, results, before, lives, key);
  }

  function Without(m: map<string, ActorRef>, keys: set<string>): map<string, ActorRef>
  {
    m - keys
  }

  lemma ForgetNone(m: map<string, ActorRef>, key: string)
    ensures Without(m, {}) == m
    ensures key !in m ==> Without(m, {key}) == m
  {
  }

  lemma ForgetMore(m: map<string, ActorRef>, done: set<string>, key: string)
    ensures Without(Without(m, done), {key}) == Without(m, done + {key})
    ensures key in m && key !in done ==> key in Without(m, done) && Without(m, done)[key] == m[key]
  {
  }

  /** No coordinator is asked twice to shut down; a running one was not asked at all, nor was one still pulsed. */
  lemma OneRequest(shell: BaseJobExecutorShell, actor: ActorRef)
    requires shell.Valid() && actor < |shell.lives|
    ensures var life := shell.lives[actor];
            && (forall i, k :: 0 <= i < k < |life| && life[i] == life[k] ==> life[i] != AskedToShutDown)
            && (Owned(shell.coordinatorPool, actor) ==> AskedToShutDown !in life)
            && (forall i, k :: 0 <= i < |life| && 0 <= k < |life| && life[i] == Scheduled && life[k] == AskedToShutDown ==>
                  exists n :: i < n < k && life[n] == Cancelled)
            && (forall k :: 0 <= k < |life| && life[k] == Poisoned ==> k > 0 && life[k - 1] == AskedToShutDown)
  {
    var life := shell.lives[actor];
    if Owned(shell.coordinatorPool, actor) {
      var q :| q in shell.coordinatorPool && shell.coordinatorPool[q] == actor;
      assert Running(life, q in shell.cancelPulsePool);
    } else {
      assert Retired(life);
    }
    assert |life| >= 4 ==> life[2] == Cancelled;
  }
}
