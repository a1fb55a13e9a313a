/**
 The calls of the job queue, statement by statement, against the shared table.  A call with
 several statements takes what other workers do between them as an argument.
 */
module JobQueueStore {
  import opened Common
  import opened JobTable
  import opened JobQueueColumns

  datatype DbError = UniqueViolation | RowNotFound

  /** No step of the window belongs to the given `fail` call. */
  predicate Foreign(window: seq<Step>, call: Id) {
    forall step | step in window :: (step.FailRead? || step.FailWrite?) ==> step.call != call
  }

  lemma {:induction false} ForeignKeepsRead(s: Sys, window: seq<Step>, call: Id)
    requires Foreign(window, call) && call in s.inFlight
    ensures call in Run(s, window).inFlight && Run(s, window).inFlight[call] == s.inFlight[call]
    decreases |window|
  {
    if window != [] {
      assert window[0] in window;
      ForeignKeepsRead(Apply(s, window[0]), window[1..], call);
    }
  }

  lemma {:induction false} RowsStay(s: Sys, window: seq<Step>, id: Id)
    requires id in s.jobs
    ensures id in Run(s, window).jobs
    decreases |window|
  {
    if window != [] { RowsStay(Apply(s, window[0]), window[1..], id); }
  }

  /** One sweep treats every stale job, and only those, exactly once. */
  lemma SweepTreatsEachStaleJobOnce(s: Sys, now: Time)
    ensures var t := Apply(Apply(s, TimeoutReset(now)), TimeoutFail(now));
            && t.jobs.Keys == s.jobs.Keys
            && forall id | id in s.jobs ::
                 t.jobs[id] == (if Stale(s.jobs[id], now) then TimedOut(s.jobs[id]) else s.jobs[id])
                 && !Stale(t.jobs[id], now)
  {
    var m := Apply(s, TimeoutReset(now));
    forall id | id in s.jobs
      ensures m.jobs[id] == if Stale(s.jobs[id], now) && RetriesLeft(s.jobs[id]) then TimedOut(s.jobs[id]) else s.jobs[id]
    {
    }
  }

  lemma LateIsStale(jobs: map<Id, Job>, now: Time)
    ensures (set id | id in jobs && Stale(jobs[id], now) && RetriesLeft(jobs[id]))
         == (set id | id in jobs && Late(jobs[id], now) && jobs[id].retryCount + 1 < jobs[id].maxRetries)
    ensures (set id | id in jobs && Stale(jobs[id], now) && !RetriesLeft(jobs[id]))
         == (set id | id in jobs && Late(jobs[id], now) && jobs[id].retryCount + 1 >= jobs[id].maxRetries)
  {
  }

  class JobQueue {
    var jobs: map<Id, Job>
    var inFlight: map<Id, Read>

    function View(): Sys
      reads this
    {
      Sys(jobs, inFlight)
    }

    constructor ()
      ensures View() == Sys(map[], map[])
    {
      jobs, inFlight := map[], map[];
    }

    /** Steps of other workers, in some window of the caller's. */
    method Others(window: seq<Step>)
      requires EnabledRun(View(), window)
      modifies this
      ensures View() == Run(old(View()), window)
    {
      var s := Run(View(), window);
      jobs, inFlight := s.jobs, s.inFlight;
    }

    method Enqueue(id: Id, jobType: string, now: Time) returns (r: Id)
      requires id !in jobs
      modifies this`jobs
      ensures r == id && View() == Apply(old(View()), Insert(id, jobType, None, now))
      ensures jobs == old(jobs)[id := Job(jobType, None, Pending, 0, 0, 3, now, None, 300)]
    {
      jobs := jobs[id := NewJob(jobType, None, now)];
      r := id;
    }

    method EnqueueScheduled(id: Id, jobType: string, at: Time) returns (r: Id)
      requires id !in jobs
      modifies this`jobs
      ensures r == id && View() == Apply(old(View()), Insert(id, jobType, None, at))
      ensures jobs == old(jobs)[id := Job(jobType, None, Pending, 0, 0, 3, at, None, 300)]
    {
      jobs := jobs[id := NewJob(jobType, None, at)];
      r := id;
    }

    method EnqueueWithCorrelation(id: Id, jobType: string, key: Id, now: Time) returns (r: Result<Id, DbError>)
      requires id !in jobs
      modifies this`jobs
      ensures View() == Apply(old(View()), Insert(id, jobType, Some(key), now))
      ensures r == if Occupied(old(jobs), jobType, key, None) then Err(UniqueViolation) else Ok(id)
      ensures jobs == if r.Ok? then old(jobs)[id := Job(jobType, Some(key), Pending, 0, 0, 3, now, None, 300)] else old(jobs)
    {
      TakenIsOccupied(jobs, jobType, key, None);
      if KeyTaken(jobs, jobType, Some(key), None) {
        return Err(UniqueViolation);
      }
      jobs := jobs[id := NewJob(jobType, Some(key), now)];
      return Ok(id);
    }

    /** INSERT ... ON CONFLICT DO NOTHING; returns the number of rows affected. */
    method InsertUnlessTaken(id: Id, jobType: string, key: Id, at: Time) returns (affected: nat)
      requires id !in jobs
      modifies this`jobs
      ensures View() == Apply(old(View()), InsertIgnore(id, jobType, key, at))
      ensures affected == if Occupied(old(jobs), jobType, key, None) then 0 else 1
      ensures jobs == if affected == 1 then old(jobs)[id := Job(jobType, Some(key), Pending, 0, 0, 3, at, None, 300)] else old(jobs)
    {
      TakenIsOccupied(jobs, jobType, key, None);
      if KeyTaken(jobs, jobType, Some(key), None) {
        return 0;
      }
      jobs := jobs[id := NewJob(jobType, Some(key), at)];
      return 1;
    }

    method EnqueueIdempotent(c: EnqueueCall) returns (r: Id, ghost o: EnqueueOutcome)
      requires FreshIds(View(), c) && EnabledWindows(View(), c)
      modifies this
      ensures IsEnqueueOutcome(old(View()), c, o)
      ensures r == o.id && View() == o.end
    {
      ghost var s := View();
      var affected := InsertUnlessTaken(c.id, c.jobType, c.key, c.at);
      if affected != 0 {
        return c.id, EnqueueOutcome(Inserted, c.id, View(), View());
      }
      Others(c.window1);
      assert View() == AtLookup(s, c);
      if existing :| existing in jobs && HoldsKey(jobs, existing, c.jobType, c.key) {
        return existing, EnqueueOutcome(Found, existing, View(), View());
      }
      Others(c.window2);
      ghost var atRetry := View();
      assert atRetry == AtRetry(s, c);
      affected := InsertUnlessTaken(c.retryId, c.jobType, c.key, c.retryAt);
      return c.retryId, EnqueueOutcome(Retried, c.retryId, atRetry, View());
    }

    /** Claims a due job that no other due job beats; there is none only if none is due. */
    method Poll(now: Time) returns (picked: Option<Id>)
      modifies this`jobs
      ensures Claimed(old(jobs), now, picked)
      ensures jobs == match picked
                      case None => old(jobs)
                      case Some(p) => old(jobs)[p := old(jobs)[p].(status := Running, startedAt := Some(now))]
      ensures View() == Apply(old(View()), Step.Poll(now, picked))
    {
      picked := None;
      var rest := jobs.Keys;
      while rest != {}
        invariant rest <= jobs.Keys
        invariant picked.Some? ==> picked.value in jobs && Due(jobs[picked.value], now)
        invariant forall id | id in jobs.Keys - rest :: Due(jobs[id], now) ==>
          picked.Some? && !Beats(jobs[id], jobs[picked.value])
      {
        var id :| id in rest;
        rest := rest - {id};
        if Due(jobs[id], now) && (picked.None? || Beats(jobs[id], jobs[picked.value])) {
          picked := Some(id);
        }
      }
      if picked.Some? {
        jobs := jobs[picked.value := jobs[picked.value].(status := Running, startedAt := Some(now))];
      }
    }

    method Complete(id: Id)
      modifies this`jobs
      ensures View() == Apply(old(View()), Step.Complete(id))
      ensures jobs == if id in old(jobs) then old(jobs)[id := old(jobs)[id].(status := Completed)] else old(jobs)
    {
      if id in jobs {
        jobs := jobs[id := jobs[id].(status := Completed)];
      }
    }

    method Cancel(id: Id)
      modifies this`jobs
      ensures View() == Apply(old(View()), Step.Cancel(id))
      ensures jobs == if id in old(jobs) && old(jobs)[id].status in {Pending, Running}
                      then old(jobs)[id := old(jobs)[id].(status := Cancelled)] else old(jobs)
    {
      if id in jobs && Active(jobs[id].status) {
        jobs := jobs[id := jobs[id].(status := Cancelled)];
      }
    }

    /** The first UPDATE: stale jobs with a retry left go back. */
    method ResetStale(now: Time) returns (affected: nat)
      modifies this
      ensures View() == Apply(old(View()), TimeoutReset(now)) && SweptBack(old(jobs), jobs, now)
      ensures affected == |set id | id in old(jobs) && Late(old(jobs)[id], now)
                                    && old(jobs)[id].retryCount + 1 < old(jobs)[id].maxRetries|
    {
      hide TimedOut, Stale, RetriesLeft, Late, SweptBack;
      LateIsStale(jobs, now);
      SweepsWriteStatus(View(), now);
      var reset := set id | id in jobs && Stale(jobs[id], now) && RetriesLeft(jobs[id]);
      jobs := map id | id in jobs :: if id in reset then TimedOut(jobs[id]) else jobs[id];
      affected := |reset|;
      assert View() == Apply(old(View()), TimeoutReset(now));
    }

    /** The second UPDATE: the others fail. */
    method FailStale(now: Time) returns (affected: nat)
      modifies this
      ensures View() == Apply(old(View()), TimeoutFail(now)) && SweptOut(old(jobs), jobs, now)
      ensures affected == |set id | id in old(jobs) && Late(old(jobs)[id], now)
                                    && old(jobs)[id].retryCount + 1 >= old(jobs)[id].maxRetries|
    {
      hide TimedOut, Stale, RetriesLeft, Late, SweptOut;
      LateIsStale(jobs, now);
      SweepsWriteStatus(View(), now);
      var failed := set id | id in jobs && Stale(jobs[id], now) && !RetriesLeft(jobs[id]);
      jobs := map id | id in jobs :: if id in failed then TimedOut(jobs[id]) else jobs[id];
      affected := |failed|;
      assert View() == Apply(old(View()), TimeoutFail(now));
    }

    /** Two bulk updates, each with its own now(); returns the rows affected by both. */
    method TimeoutStaleJobs(now1: Time, window: seq<Step>, now2: Time) returns (affected: nat)
      requires EnabledRun(Apply(View(), TimeoutReset(now1)), window)
      modifies this
      ensures var atFail := Run(Apply(old(View()), TimeoutReset(now1)), window);
              && SweptBack(old(jobs), Apply(old(View()), TimeoutReset(now1)).jobs, now1)
              && View() == Apply(atFail, TimeoutFail(now2)) && SweptOut(atFail.jobs, jobs, now2)
              && affected == |set id | id in old(jobs) && Late(old(jobs)[id], now1)
                                      && old(jobs)[id].retryCount + 1 < old(jobs)[id].maxRetries|
                           + |set id | id in atFail.jobs && Late(atFail.jobs[id], now2)
                                      && atFail.jobs[id].retryCount + 1 >= atFail.jobs[id].maxRetries|
    {
      hide Apply, EnabledRun, Run, Late, SweptBack, SweptOut;
      var reset := ResetStale(now1);
      Others(window);
      var failed := FailStale(now2);
      affected := reset + failed;
    }

    /** Reads the counts, and later writes what they imply without looking at the row again. */
    method Fail(call: Id, id: Id, window: seq<Step>, now: Time) returns (r: Result<(), DbError>)
      requires call !in inFlight && Foreign(window, call)
      requires EnabledRun(Apply(View(), FailRead(call, id)), window)
      modifies this
      ensures id !in old(jobs) ==> r == Err(RowNotFound) && View() == old(View())
      ensures id in old(jobs) ==>
                var atWrite := Run(Apply(old(View()), FailRead(call, id)), window);
                && View() == Apply(atWrite, FailWrite(call, now))
                && (r.Err? <==> WriteRefused(atWrite.jobs, Read(id, old(jobs)[id].retryCount, old(jobs)[id].maxRetries)))
      ensures id in old(jobs) && old(jobs)[id].retryCount >= 0 ==>
                var atWrite := Run(Apply(old(View()), FailRead(call, id)), window).jobs;
                var count := old(jobs)[id].retryCount + 1;
                && id in atWrite
                && var j := atWrite[id];
                   if count >= old(jobs)[id].maxRetries then
                     r.Ok? && jobs == atWrite[id := j.(status := Failed, retryCount := count)]
                   else if j.correlation.Some? && Occupied(atWrite, j.jobType, j.correlation.value, Some(id)) then
                     r == Err(UniqueViolation) && jobs == atWrite
                   else
                     r.Ok? && jobs == atWrite[id := j.(status := Pending, retryCount := count,
                                                       scheduledAt := now + Pow2(count) * 1_000_000)]
    {
      if id !in jobs {
        return Err(RowNotFound);
      }
      var retryCount, maxRetries := jobs[id].retryCount, jobs[id].maxRetries;
      inFlight := inFlight[call := Read(id, retryCount, maxRetries)];
      ghost var afterRead := View();
      Others(window);
      ForeignKeepsRead(afterRead, window, call);
      RowsStay(afterRead, window, id);
      if jobs[id].correlation.Some? { TakenIsOccupied(jobs, jobs[id].jobType, jobs[id].correlation.value, Some(id)); }
      inFlight := inFlight - {call};
      var newRetryCount := retryCount + 1;
      if newRetryCount < maxRetries {
        if KeyTaken(jobs, jobs[id].jobType, jobs[id].correlation, Some(id)) {
          return Err(UniqueViolation);
        }
        var backoffSeconds := Backoff(newRetryCount);
        jobs := jobs[id := jobs[id].(status := Pending, retryCount := newRetryCount,
                                     scheduledAt := now + backoffSeconds * SECOND)];
      } else {
        jobs := jobs[id := jobs[id].(status := Failed, retryCount := newRetryCount)];
      }
      return Ok(());
    }
  }
}
