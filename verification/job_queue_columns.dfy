/** What each statement does to the columns of the job table, and when a failed job is handed out again. */
module JobQueueColumns {
  import opened Common
  import opened JobTable
  import opened JobQueueSafety
  import opened JobQueueRetries

  /** Some pending or running row has this type and correlation id. */
  predicate Occupied(jobs: map<Id, Job>, jobType: string, key: Id, except: Option<Id>) {
    exists x :: x in jobs && Some(x) != except && (jobs[x].status == Pending || jobs[x].status == Running)
                && jobs[x].jobType == jobType && jobs[x].correlation == Some(key)
  }

  lemma TakenIsOccupied(jobs: map<Id, Job>, jobType: string, key: Id, except: Option<Id>)
    ensures KeyTaken(jobs, jobType, Some(key), except) <==> Occupied(jobs, jobType, key, except)
  {
    if KeyTaken(jobs, jobType, Some(key), except) {
      var x :| x in jobs && Some(x) != except && HoldsKey(jobs, x, jobType, key);
      assert jobs[x].status == Pending || jobs[x].status == Running;
    }
    if Occupied(jobs, jobType, key, except) {
      var x :| x in jobs && Some(x) != except && (jobs[x].status == Pending || jobs[x].status == Running)
               && jobs[x].jobType == jobType && jobs[x].correlation == Some(key);
      assert HoldsKey(jobs, x, jobType, key);
    }
  }

  /** In every reachable state two pending or running jobs of one type have different correlation ids. */
  lemma ActiveJobsHaveOwnKeys(s: Sys, steps: seq<Step>, a: Id, b: Id)
    requires Good(s) && EnabledRun(s, steps)
    ensures var jobs := Run(s, steps).jobs;
            (a in jobs && b in jobs && a != b && jobs[a].status in {Pending, Running} && jobs[b].status in {Pending, Running}
             && jobs[a].jobType == jobs[b].jobType && jobs[a].correlation.Some?) ==>
              jobs[a].correlation != jobs[b].correlation
  {
    RunKeepsGood(s, steps);
    var jobs := Run(s, steps).jobs;
    if a in jobs && b in jobs && jobs[a].correlation.Some? && jobs[a].correlation == jobs[b].correlation {
      var key := jobs[a].correlation.value;
      assert HoldsKey(jobs, a, jobs[a].jobType, key) && HoldsKey(jobs, b, jobs[b].jobType, key) ==>
               jobs[a].jobType != jobs[b].jobType || a == b;
    }
  }

  // ----- the statements -----

  /** Both inserts write the column defaults, unless the id or the key is taken. */
  lemma InsertWritesDefaults(s: Sys, id: Id, jobType: string, correlation: Option<Id>, at: Time)
    ensures var t := Apply(s, Insert(id, jobType, correlation, at));
            if id in s.jobs || (correlation.Some? && Occupied(s.jobs, jobType, correlation.value, None)) then t == s
            else t.inFlight == s.inFlight
                 && t.jobs == s.jobs[id := Job(jobType, correlation, Pending, 0, 0, 3, at, None, 300)]
    ensures correlation.Some? ==>
              Apply(s, InsertIgnore(id, jobType, correlation.value, at)) == Apply(s, Insert(id, jobType, correlation, at))
  {
    if correlation.Some? { TakenIsOccupied(s.jobs, jobType, correlation.value, None); }
  }

  /** The claim: pending, due, of the highest priority, and of the earliest schedule among those. */
  ghost predicate Claimed(jobs: map<Id, Job>, now: Time, picked: Option<Id>) {
    match picked
    case None => forall x | x in jobs && jobs[x].status == Pending :: jobs[x].scheduledAt > now
    case Some(p) =>
      && p in jobs && jobs[p].status == Pending && jobs[p].scheduledAt <= now
      && forall x | x in jobs && jobs[x].status == Pending && jobs[x].scheduledAt <= now ::
           jobs[x].priority <= jobs[p].priority
           && (jobs[x].priority == jobs[p].priority ==> jobs[x].scheduledAt >= jobs[p].scheduledAt)
  }

  lemma PollClaimsFirst(s: Sys, now: Time, picked: Option<Id>)
    ensures Enabled(s, Step.Poll(now, picked)) <==> Claimed(s.jobs, now, picked)
    ensures Claimed(s.jobs, now, picked) ==>
              var t := Apply(s, Step.Poll(now, picked));
              t.inFlight == s.inFlight
              && t.jobs == match picked
                           case None => s.jobs
                           case Some(p) => s.jobs[p := s.jobs[p].(status := Running, startedAt := Some(now))]
  {
  }

  /** A report of success is taken whatever the status; only a pending or running job can be cancelled. */
  lemma CompleteAndCancel(s: Sys, id: Id)
    ensures var t := Apply(s, Step.Complete(id));
            t.inFlight == s.inFlight
            && t.jobs == if id in s.jobs then s.jobs[id := s.jobs[id].(status := Completed)] else s.jobs
    ensures var t := Apply(s, Step.Cancel(id));
            t.inFlight == s.inFlight
            && t.jobs == if id in s.jobs && s.jobs[id].status in {Pending, Running}
                         then s.jobs[id := s.jobs[id].(status := Cancelled)] else s.jobs
  {
  }

  /** Running, and started longer ago than its timeout. */
  predicate Late(j: Job, now: Time) {
    j.status == Running && j.startedAt.Some? && j.startedAt.value + j.timeoutSeconds * 1_000_000 < now
  }

  ghost predicate SweptBack(before: map<Id, Job>, after: map<Id, Job>, now: Time) {
    after == map id | id in before ::
      if Late(before[id], now) && before[id].retryCount + 1 < before[id].maxRetries
      then before[id].(status := Pending, retryCount := before[id].retryCount + 1) else before[id]
  }

  ghost predicate SweptOut(before: map<Id, Job>, after: map<Id, Job>, now: Time) {
    after == map id | id in before ::
      if Late(before[id], now) && before[id].retryCount + 1 >= before[id].maxRetries
      then before[id].(status := Failed, retryCount := before[id].retryCount + 1) else before[id]
  }

  /** Both sweeps count the try; the first sends jobs with a retry left back, the second fails the others. */
  lemma SweepsWriteStatus(s: Sys, now: Time)
    ensures Apply(s, TimeoutReset(now)).inFlight == Apply(s, TimeoutFail(now)).inFlight == s.inFlight
    ensures SweptBack(s.jobs, Apply(s, TimeoutReset(now)).jobs, now)
    ensures SweptOut(s.jobs, Apply(s, TimeoutFail(now)).jobs, now)
  {
  }

  lemma FailReadsCounts(s: Sys, call: Id, id: Id)
    ensures var t := Apply(s, FailRead(call, id));
            t.jobs == s.jobs
            && (id in s.jobs ==> t.inFlight == s.inFlight[call := Read(id, s.jobs[id].retryCount, s.jobs[id].maxRetries)])
  {
  }

  /** The write of a `fail`: refused, pending again after 2^(count) seconds, or failed. */
  lemma FailWritesOutcome(s: Sys, call: Id, now: Time)
    requires call in s.inFlight && s.inFlight[call].id in s.jobs && s.inFlight[call].retryCount >= 0
    ensures var r := s.inFlight[call]; var j := s.jobs[r.id]; var t := Apply(s, FailWrite(call, now));
            && t.inFlight == s.inFlight - {call}
            && t.jobs == (
                 if r.retryCount + 1 >= r.maxRetries then s.jobs[r.id := j.(status := Failed, retryCount := r.retryCount + 1)]
                 else if j.correlation.Some? && Occupied(s.jobs, j.jobType, j.correlation.value, Some(r.id)) then s.jobs
                 else s.jobs[r.id := j.(status := Pending, retryCount := r.retryCount + 1,
                                        scheduledAt := now + Pow2(r.retryCount + 1) * 1_000_000)])
  {
    var j := s.jobs[s.inFlight[call].id];
    if j.correlation.Some? { TakenIsOccupied(s.jobs, j.jobType, j.correlation.value, Some(s.inFlight[call].id)); }
  }

  // ----- backoff over runs -----

  /** Only such a write moves a job's schedule. */
  lemma ScheduleStays(s: Sys, step: Step, id: Id)
    requires id in s.jobs && !Reactivates(s, step, id)
    ensures id in Apply(s, step).jobs && Apply(s, step).jobs[id].scheduledAt == s.jobs[id].scheduledAt
  {
  }

  lemma {:induction false} ScheduleStaysOver(s: Sys, steps: seq<Step>, id: Id, k: nat)
    requires EnabledRun(s, steps) && id in s.jobs && k <= |steps|
    requires forall m | 0 <= m < k :: !Reactivates(StateAt(s, steps, m), steps[m], id)
    ensures id in StateAt(s, steps, k).jobs && StateAt(s, steps, k).jobs[id].scheduledAt == s.jobs[id].scheduledAt
    decreases k
  {
    if k > 0 {
      ScheduleStaysOver(s, steps, id, k - 1);
      StateAfter(s, steps, k - 1);
      ScheduleStays(StateAt(s, steps, k - 1), steps[k - 1], id);
    } else {
      assert steps[..0] == [];
    }
  }

  /** A job that failed is not handed out before its backoff is over, unless another failure dates it anew. */
  lemma NoPollBeforeBackoff(s: Sys, call: Id, now: Time, steps: seq<Step>, id: Id, k: nat)
    requires Good(s) && Reactivates(s, FailWrite(call, now), id)
    requires EnabledRun(Apply(s, FailWrite(call, now)), steps) && k < |steps| && PollOf(steps[k], id)
    requires forall m | 0 <= m < k ::
               !Reactivates(StateAt(Apply(s, FailWrite(call, now)), steps, m), steps[m], id)
    ensures steps[k].now >= now + Pow2(s.inFlight[call].retryCount + 1) * 1_000_000
  {
    var t := Apply(s, FailWrite(call, now));
    assert ReadSound(s.jobs, s.inFlight[call]);
    FailWritesOutcome(s, call, now);
    assert t.jobs[id].scheduledAt == now + Pow2(s.inFlight[call].retryCount + 1) * 1_000_000 by {
      var j := s.jobs[id];
      if j.correlation.Some? { TakenIsOccupied(s.jobs, j.jobType, j.correlation.value, Some(id)); }
    }
    ScheduleStaysOver(t, steps, id, k);
    StateAfter(t, steps, k);
    PollClaimsFirst(StateAt(t, steps, k), steps[k].now, steps[k].picked);
  }
}
