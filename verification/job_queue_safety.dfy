/**
 What holds in every interleaving of the statements of `JobQueue`, with no assumption
 about who reports what and when.
 */
module JobQueueSafety {
  import opened Common
  import opened JobTable

  /** At most one non-terminal row for each (job_type, correlation_id). */
  ghost predicate UniqueKeys(jobs: map<Id, Job>) {
    forall a, b, jobType, key :: HoldsKey(jobs, a, jobType, key) && HoldsKey(jobs, b, jobType, key) ==> a == b
  }

  predicate CountInBudget(job: Job) {
    0 <= job.retryCount && (Active(job.status) ==> job.retryCount < job.maxRetries)
  }

  /** An interrupted `fail` call still holds its row's budget, and some count the row once had. */
  predicate ReadSound(jobs: map<Id, Job>, r: Read) {
    r.id in jobs && r.maxRetries == jobs[r.id].maxRetries && 0 <= r.retryCount
  }

  ghost predicate Good(s: Sys) {
    && UniqueKeys(s.jobs)
    && (forall id :: id in s.jobs ==> CountInBudget(s.jobs[id]))
    && (forall c :: c in s.inFlight ==> ReadSound(s.jobs, s.inFlight[c]))
  }

  lemma StepKeepsUniqueKeys(s: Sys, step: Step)
    requires Good(s) && Enabled(s, step)
    ensures UniqueKeys(Apply(s, step).jobs)
  {
    var t := Apply(s, step).jobs;
    forall a, b, jobType, key | HoldsKey(t, a, jobType, key) && HoldsKey(t, b, jobType, key)
      ensures a == b
    {
      if HoldsKey(s.jobs, a, jobType, key) && HoldsKey(s.jobs, b, jobType, key) {
      } else {
        // Exactly one of the two rows became active now; the index had to be free for it.
      }
    }
  }

  lemma StepKeepsGood(s: Sys, step: Step)
    requires Good(s) && Enabled(s, step)
    ensures Good(Apply(s, step))
  {
    StepKeepsUniqueKeys(s, step);
  }

  lemma {:induction false} RunKeepsGood(s: Sys, steps: seq<Step>)
    requires Good(s) && EnabledRun(s, steps)
    ensures Good(Run(s, steps))
    decreases |steps|
  {
    if steps != [] {
      StepKeepsGood(s, steps[0]);
      RunKeepsGood(Apply(s, steps[0]), steps[1..]);
    }
  }

  // ----- what a poll hands out -----

  predicate PollOf(step: Step, id: Id) {
    step.Poll? && step.picked == Some(id)
  }

  function StateAt(s: Sys, steps: seq<Step>, k: nat): Sys
    requires k <= |steps|
  {
    Run(s, steps[..k])
  }

  lemma {:induction false} StateAfter(s: Sys, steps: seq<Step>, k: nat)
    requires k < |steps| && EnabledRun(s, steps)
    ensures StateAt(s, steps, k + 1) == Apply(StateAt(s, steps, k), steps[k])
    ensures Enabled(StateAt(s, steps, k), steps[k])
    decreases k
  {
    if k == 0 {
      assert steps[..0] == [] && steps[..1][1..] == [];
      assert Run(Apply(s, steps[0]), []) == Apply(s, steps[0]);
    } else {
      StateAfter(Apply(s, steps[0]), steps[1..], k - 1);
      assert steps[1..][..k] == steps[..k + 1][1..] && steps[1..][..k - 1] == steps[..k][1..];
    }
  }

  predicate IsPending(s: Sys, id: Id) {
    id in s.jobs && s.jobs[id].status == Pending
  }

  /** The step is the write of a `fail`, or a timeout, that takes the job back to pending. */
  predicate SendsBack(s: Sys, step: Step, id: Id) {
    && id in s.jobs && s.jobs[id].status != Pending && IsPending(Apply(s, step), id)
    && ((step.FailWrite? && step.call in s.inFlight && s.inFlight[step.call].id == id)
        || (step.TimeoutReset? && Stale(s.jobs[id], step.now) && RetriesLeft(s.jobs[id])))
  }

  lemma {:induction false} PendingAgain(s: Sys, steps: seq<Step>, id: Id, a: nat, b: nat)
    requires EnabledRun(s, steps) && a <= b <= |steps|
    requires id in StateAt(s, steps, a).jobs && !IsPending(StateAt(s, steps, a), id)
    requires IsPending(StateAt(s, steps, b), id)
    ensures exists k :: a <= k < b && SendsBack(StateAt(s, steps, k), steps[k], id)
    decreases b - a
  {
    StateAfter(s, steps, a);
    if IsPending(StateAt(s, steps, a + 1), id) {
      assert SendsBack(StateAt(s, steps, a), steps[a], id);
    } else {
      PendingAgain(s, steps, id, a + 1, b);
    }
  }

  /** Two polls that return the same job have a failure or timeout of that job between them. */
  lemma PollsAreSeparated(s: Sys, steps: seq<Step>, id: Id, i: nat, j: nat)
    requires EnabledRun(s, steps) && i < j < |steps|
    requires PollOf(steps[i], id) && PollOf(steps[j], id)
    ensures exists k :: i < k < j && SendsBack(StateAt(s, steps, k), steps[k], id)
  {
    StateAfter(s, steps, i);
    StateAfter(s, steps, j);
    PendingAgain(s, steps, id, i + 1, j);
  }

  // ----- enqueue_idempotent -----

  /** A step after which the key is held although it was free before. */
  predicate TakesKey(s: Sys, step: Step, jobType: string, key: Id) {
    !KeyTaken(s.jobs, jobType, Some(key), None) && KeyTaken(Apply(s, step).jobs, jobType, Some(key), None)
  }

  predicate IsInsertOf(step: Step, jobType: string, key: Id) {
    (step.Insert? && step.jobType == jobType && step.correlation == Some(key))
    || (step.InsertIgnore? && step.jobType == jobType && step.key == key)
  }

  /** The write of a `fail` that turns a finished row of this key back into a pending one. */
  predicate Revives(s: Sys, step: Step, jobType: string, key: Id) {
    && step.FailWrite? && step.call in s.inFlight
    && var id := s.inFlight[step.call].id;
    && id in s.jobs && !Active(s.jobs[id].status) && HoldsKey(Apply(s, step).jobs, id, jobType, key)
  }

  /** A free key can be taken in two ways only. */
  lemma KeyIsTakenByInsertOrRevival(s: Sys, step: Step, jobType: string, key: Id)
    requires Good(s) && Enabled(s, step) && TakesKey(s, step, jobType, key)
    ensures IsInsertOf(step, jobType, key) || Revives(s, step, jobType, key)
  {
    var t := Apply(s, step).jobs;
    var id :| id in t && HoldsKey(t, id, jobType, key);
    assert !HoldsKey(s.jobs, id, jobType, key);
  }

  lemma {:induction false} SomeStepTookKey(s: Sys, steps: seq<Step>, jobType: string, key: Id)
    requires Good(s) && EnabledRun(s, steps)
    requires !KeyTaken(s.jobs, jobType, Some(key), None)
    requires KeyTaken(Run(s, steps).jobs, jobType, Some(key), None)
    ensures exists k: nat :: k < |steps| && TakesKey(StateAt(s, steps, k), steps[k], jobType, key)
    decreases |steps|
  {
    if TakesKey(s, steps[0], jobType, key) {
      assert steps[..0] == [];
      assert TakesKey(StateAt(s, steps, 0), steps[0], jobType, key);
    } else {
      StepKeepsGood(s, steps[0]);
      SomeStepTookKey(Apply(s, steps[0]), steps[1..], jobType, key);
      var k: nat :| k < |steps[1..]| && TakesKey(StateAt(Apply(s, steps[0]), steps[1..], k), steps[1..][k], jobType, key);
      assert steps[1..][..k] == steps[..k + 1][1..];
      assert TakesKey(StateAt(s, steps, k + 1), steps[k + 1], jobType, key);
    }
  }

  /** The call reached its second insert and the key had been taken again in the second window. */
  ghost predicate RetryLost(s: Sys, c: EnqueueCall, o: EnqueueOutcome) {
    o.exit == Retried && KeyTaken(AtRetry(s, c).jobs, c.jobType, Some(c.key), None)
  }

  /**
   The returned id names a row that carried the key and was non-terminal inside the call,
   exactly when the retry did not lose the key again; a lost retry returns an id of no row.
   */
  lemma EnqueueReturnsActiveRow(s: Sys, c: EnqueueCall, o: EnqueueOutcome)
    requires Good(s) && FreshIds(s, c) && EnabledWindows(s, c) && IsEnqueueOutcome(s, c, o)
    ensures Good(o.end)
    ensures HoldsKey(o.decided.jobs, o.id, c.jobType, c.key) || HoldsKey(o.end.jobs, o.id, c.jobType, c.key)
            <==> !RetryLost(s, c, o)
    ensures RetryLost(s, c, o) ==> o.id !in o.end.jobs
  {
    StepKeepsGood(s, FirstInsert(c));
    RunKeepsGood(Apply(s, FirstInsert(c)), c.window1);
    RunKeepsGood(AtLookup(s, c), c.window2);
    StepKeepsGood(AtRetry(s, c), SecondInsert(c));
  }

  /** A lost retry has someone else to blame: an insert or a revival inside the second window. */
  lemma RetryIsLostInSecondWindow(s: Sys, c: EnqueueCall, o: EnqueueOutcome)
    requires Good(s) && FreshIds(s, c) && EnabledWindows(s, c) && IsEnqueueOutcome(s, c, o) && RetryLost(s, c, o)
    ensures exists k: nat :: k < |c.window2| &&
              var t := StateAt(AtLookup(s, c), c.window2, k);
              IsInsertOf(c.window2[k], c.jobType, c.key) || Revives(t, c.window2[k], c.jobType, c.key)
  {
    StepKeepsGood(s, FirstInsert(c));
    RunKeepsGood(Apply(s, FirstInsert(c)), c.window1);
    var t := AtLookup(s, c);
    SomeStepTookKey(t, c.window2, c.jobType, c.key);
    var k: nat :| k < |c.window2| && TakesKey(StateAt(t, c.window2, k), c.window2[k], c.jobType, c.key);
    PrefixIsGood(t, c.window2, k);
    StateAfter(t, c.window2, k);
    KeyIsTakenByInsertOrRevival(StateAt(t, c.window2, k), c.window2[k], c.jobType, c.key);
  }

  lemma {:induction false} PrefixIsGood(s: Sys, steps: seq<Step>, k: nat)
    requires Good(s) && EnabledRun(s, steps) && k <= |steps|
    ensures Good(StateAt(s, steps, k))
    decreases k
  {
    if k > 0 {
      PrefixIsGood(s, steps, k - 1);
      StateAfter(s, steps, k - 1);
      StepKeepsGood(StateAt(s, steps, k - 1), steps[k - 1]);
    } else {
      assert steps[..0] == [];
    }
  }

  // The job under the key fails late, is completed before the lookup and revived before the retry.

  function RevivalJob(): Job { NewJob("t", Some(7), 0).(status := Running) }

  function RevivalStart(): Sys { Sys(map[1 := RevivalJob()], map[0 := Read(1, 0, 3)]) }

  function RevivalCall(): EnqueueCall { EnqueueCall(2, 3, "t", 7, 0, 0, [Complete(1)], [FailWrite(0, 0)]) }

  lemma RevivalLookup()
    ensures var s, c := RevivalStart(), RevivalCall();
            && Good(s) && Apply(s, FirstInsert(c)) == s && EnabledRun(s, c.window1)
            && AtLookup(s, c) == Sys(map[1 := RevivalJob().(status := Completed)], s.inFlight)
  {
    var s, c := RevivalStart(), RevivalCall();
    assert HoldsKey(s.jobs, 1, "t", 7);
    assert c.window1[1..] == [];
  }

  lemma RevivalRetry()
    ensures var s, c := RevivalStart(), RevivalCall(); var t := AtRetry(s, c);
            && EnabledRun(AtLookup(s, c), c.window2) && t.jobs.Keys == {1} && HoldsKey(t.jobs, 1, "t", 7)
            && Apply(t, SecondInsert(c)) == t
  {
    RevivalLookup();
    hide AtLookup;
    var s, c := RevivalStart(), RevivalCall();
    assert c.window2[1..] == [];
    assert AtRetry(s, c) == Apply(AtLookup(s, c), FailWrite(0, 0));
    assert HoldsKey(AtRetry(s, c).jobs, 1, "t", 7);
  }

  /** The job a lost retry was blocked by can be a finished one that a late `fail` revived. */
  lemma RevivalLosesRetry()
    ensures exists s, c, o :: Good(s) && FreshIds(s, c) && EnabledWindows(s, c) && IsEnqueueOutcome(s, c, o)
              && o.exit == Retried && o.id !in o.end.jobs
              && forall step | step in c.window1 + c.window2 :: !IsInsertOf(step, c.jobType, c.key)
  {
    hide Good, EnabledRun, AtRetry, Apply;
    var s, c := RevivalStart(), RevivalCall();
    RevivalLookup();
    RevivalRetry();
    hide AtLookup;
    var o := EnqueueOutcome(Retried, 3, AtRetry(s, c), AtRetry(s, c));
    assert IsEnqueueOutcome(s, c, o);
  }
}
