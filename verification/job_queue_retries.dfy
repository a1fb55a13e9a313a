/**
 Delivery, backoff and termination bounds.  They hold for every run in which each report comes from the worker whose
 claim is still current, and for every other run with exactly what a late report gives back.
 */
module JobQueueRetries {
  import opened Common
  import opened JobTable
  import opened JobQueueSafety

  /** A report finds the claim it is about: the row is running and has not been retried since. */
  predicate ClaimCurrent(s: Sys, step: Step) {
    match step
    case Complete(id) => id in s.jobs ==> s.jobs[id].status == Running
    case FailWrite(call, _) =>
      call in s.inFlight && s.inFlight[call].id in s.jobs ==>
        s.jobs[s.inFlight[call].id].status == Running
        && s.jobs[s.inFlight[call].id].retryCount == s.inFlight[call].retryCount
    case _ => true
  }

  predicate ExclusiveRun(s: Sys, steps: seq<Step>)
    decreases |steps|
  {
    steps == [] || (ClaimCurrent(s, steps[0]) && ExclusiveRun(Apply(s, steps[0]), steps[1..]))
  }

  // ----- deliveries -----

  function Deliveries(steps: seq<Step>, id: Id): nat {
    if steps == [] then 0 else (if PollOf(steps[0], id) then 1 else 0) + Deliveries(steps[1..], id)
  }

  /** How often the job can still be handed out; a row not inserted yet has the default budget. */
  function DeliveriesLeft(s: Sys, id: Id): int {
    if id !in s.jobs then DEFAULT_MAX_RETRIES
    else match s.jobs[id].status
      case Pending => s.jobs[id].maxRetries - s.jobs[id].retryCount
      case Running => s.jobs[id].maxRetries - s.jobs[id].retryCount - 1
      case _ => 0
  }

  lemma GoodHasDeliveries(s: Sys, id: Id)
    requires Good(s)
    ensures DeliveriesLeft(s, id) >= 0
  {
  }

  /** A poll uses up one delivery, and no step gives one back. */
  lemma DeliveriesOnlyDrop(s: Sys, step: Step, id: Id)
    requires Good(s) && Enabled(s, step) && ClaimCurrent(s, step)
    ensures DeliveriesLeft(Apply(s, step), id) + (if PollOf(step, id) then 1 else 0) <= DeliveriesLeft(s, id)
  {
  }

  /** The step is the second statement of a `fail` of this job, and makes it pending. */
  predicate Reactivates(s: Sys, step: Step, id: Id) {
    && step.FailWrite? && step.call in s.inFlight && s.inFlight[step.call].id == id && id in s.jobs
    && s.inFlight[step.call].retryCount + 1 < s.inFlight[step.call].maxRetries
    && !WriteRefused(s.jobs, s.inFlight[step.call])
  }

  /** A terminal job becomes active in one way only, and always in that way. */
  lemma TerminalJobIsRevivedByFail(s: Sys, step: Step, id: Id)
    requires Good(s) && Enabled(s, step) && id in s.jobs && !Active(s.jobs[id].status)
    ensures id in Apply(s, step).jobs
    ensures Active(Apply(s, step).jobs[id].status) <==> Reactivates(s, step, id)
  {
  }

  /** The deliveries a job has after such a write. */
  function Granted(s: Sys, step: Step, id: Id): int
    requires Reactivates(s, step, id)
  {
    s.inFlight[step.call].maxRetries - s.inFlight[step.call].retryCount - 1
  }

  /** The deliveries a step gives back beyond those the job still had. */
  function Refund(s: Sys, step: Step, id: Id): nat {
    if Reactivates(s, step, id) && Granted(s, step, id) > DeliveriesLeft(s, id)
    then Granted(s, step, id) - DeliveriesLeft(s, id) else 0
  }

  /** Deliveries are gained exactly by a write that grants more of them than the job still had. */
  lemma DeliveriesAreGainedByRefund(s: Sys, step: Step, id: Id)
    requires Good(s) && Enabled(s, step)
    ensures var after := DeliveriesLeft(Apply(s, step), id) + if PollOf(step, id) then 1 else 0;
            && (after > DeliveriesLeft(s, id) <==> Refund(s, step, id) > 0)
            && after <= DeliveriesLeft(s, id) + Refund(s, step, id)
    ensures ClaimCurrent(s, step) ==> Refund(s, step, id) == 0
  {
  }

  function Refunds(s: Sys, steps: seq<Step>, id: Id): nat
    decreases |steps|
  {
    if steps == [] then 0 else Refund(s, steps[0], id) + Refunds(Apply(s, steps[0]), steps[1..], id)
  }

  /** In every run, whoever reports what, a job is delivered at most as often as its budget and the refunds allow. */
  lemma {:induction false} DeliveriesAreRefunded(s: Sys, steps: seq<Step>, id: Id)
    requires Good(s) && EnabledRun(s, steps)
    ensures Deliveries(steps, id) <= DeliveriesLeft(s, id) + Refunds(s, steps, id)
    decreases |steps|
  {
    hide Good, Apply, Enabled, Refund, DeliveriesLeft;
    if steps == [] {
      GoodHasDeliveries(s, id);
    } else {
      DeliveriesAreGainedByRefund(s, steps[0], id);
      StepKeepsGood(s, steps[0]);
      DeliveriesAreRefunded(Apply(s, steps[0]), steps[1..], id);
    }
  }

  lemma {:induction false} CurrentClaimsGetNoRefund(s: Sys, steps: seq<Step>, id: Id)
    requires Good(s) && EnabledRun(s, steps) && ExclusiveRun(s, steps)
    ensures Refunds(s, steps, id) == 0
    decreases |steps|
  {
    hide Good, Apply, Enabled, Refund, DeliveriesLeft, ClaimCurrent;
    if steps != [] {
      DeliveriesAreGainedByRefund(s, steps[0], id);
      StepKeepsGood(s, steps[0]);
      CurrentClaimsGetNoRefund(Apply(s, steps[0]), steps[1..], id);
    }
  }

  lemma DeliveriesAreBounded(s: Sys, steps: seq<Step>, id: Id)
    requires Good(s) && EnabledRun(s, steps) && ExclusiveRun(s, steps)
    ensures Deliveries(steps, id) <= DeliveriesLeft(s, id)
  {
    DeliveriesAreRefunded(s, steps, id);
    CurrentClaimsGetNoRefund(s, steps, id);
  }

  // ----- backoff -----

  /** How far, in seconds, a step puts a job off: its new schedule against the time of the step. */
  function Delay(s: Sys, step: Step, id: Id): int {
    if Reactivates(s, step, id) then (Apply(s, step).jobs[id].scheduledAt - step.now) / SECOND else 0
  }

  lemma DelayIsBackoff(s: Sys, step: Step, id: Id)
    requires Good(s) && Reactivates(s, step, id)
    ensures var count := s.inFlight[step.call].retryCount + 1;
            count >= 1 && Delay(s, step, id) == Pow2(count)
            && Apply(s, step).jobs[id].scheduledAt == step.now + Pow2(count) * SECOND
  {
    assert ReadSound(s.jobs, s.inFlight[step.call]);
    InSeconds(step.now, Pow2(s.inFlight[step.call].retryCount + 1));
  }

  lemma InSeconds(now: Time, n: nat)
    ensures (now + n * SECOND - now) / SECOND == n
  {
  }

  function TotalDelay(s: Sys, steps: seq<Step>, id: Id): int
    decreases |steps|
  {
    if steps == [] then 0 else Delay(s, steps[0], id) + TotalDelay(Apply(s, steps[0]), steps[1..], id)
  }

  function Pow2Of(n: int): nat {
    if n < 0 then 1 else Pow2(n)
  }

  function DelayLeft(s: Sys, id: Id): int {
    if id !in s.jobs then Pow2(DEFAULT_MAX_RETRIES) - 2
    else if Active(s.jobs[id].status) then Pow2Of(s.jobs[id].maxRetries) - Pow2Of(s.jobs[id].retryCount + 1)
    else 0
  }

  lemma {:induction false} Pow2Monotone(a: int, b: int)
    requires 0 <= a <= b
    ensures Pow2Of(a) <= Pow2Of(b)
    decreases b - a
  {
    if a < b { Pow2Monotone(a, b - 1); }
  }

  lemma WriteSpendsDelay(s: Sys, step: Step, id: Id)
    requires Good(s) && Reactivates(s, step, id) && ClaimCurrent(s, step)
    ensures Delay(s, step, id) + DelayLeft(Apply(s, step), id) <= DelayLeft(s, id)
  {
    DelayIsBackoff(s, step, id);
    hide Delay;
    var j := s.jobs[id];
    Pow2Monotone(j.retryCount + 1, j.maxRetries);
    assert Pow2Of(j.retryCount + 2) == 2 * Pow2Of(j.retryCount + 1);
  }

  lemma StepSpendsDelay(s: Sys, step: Step, id: Id)
    requires Good(s) && Enabled(s, step) && ClaimCurrent(s, step)
    ensures Delay(s, step, id) + DelayLeft(Apply(s, step), id) <= DelayLeft(s, id)
    ensures DelayLeft(s, id) >= 0
  {
    if id in s.jobs && Active(s.jobs[id].status) {
      Pow2Monotone(s.jobs[id].retryCount + 1, s.jobs[id].maxRetries);
    }
    if Reactivates(s, step, id) {
      WriteSpendsDelay(s, step, id);
    } else if id in s.jobs {
      assert Active(s.jobs[id].status) ==> Pow2Of(s.jobs[id].retryCount + 2) == 2 * Pow2Of(s.jobs[id].retryCount + 1);
    } else {
      assert Pow2(DEFAULT_MAX_RETRIES) == 8 by { assert Pow2(2) == 4; }
    }
  }

  lemma GoodHasDelay(s: Sys, id: Id)
    requires Good(s)
    ensures DelayLeft(s, id) >= 0
  {
    StepSpendsDelay(s, TimeoutReset(0), id);
  }

  lemma Pow2Strict(a: int, b: int)
    requires 0 <= a && 0 <= b
    ensures a < b <==> Pow2Of(a) < Pow2Of(b)
  {
    if a < b { Pow2Monotone(a + 1, b); } else { Pow2Monotone(b, a); }
  }

  /** The delay a write adds, and what it leaves, beyond what the job had left. */
  function DelayRefund(s: Sys, step: Step, id: Id): nat {
    if !Reactivates(s, step, id) then 0
    else
      var r := s.inFlight[step.call];
      var granted := Pow2Of(r.maxRetries) - Pow2Of(r.retryCount + 1);
      if granted > DelayLeft(s, id) then granted - DelayLeft(s, id) else 0
  }

  /** Delay is gained exactly by a write to a terminal job, or one that read a lower count than the job has. */
  lemma DelaysAreGainedByRefund(s: Sys, step: Step, id: Id)
    requires Good(s) && Enabled(s, step)
    ensures var after := Delay(s, step, id) + DelayLeft(Apply(s, step), id);
            && (after > DelayLeft(s, id) <==> DelayRefund(s, step, id) > 0)
            && after <= DelayLeft(s, id) + DelayRefund(s, step, id)
    ensures DelayRefund(s, step, id) > 0 <==>
            Reactivates(s, step, id)
            && (!Active(s.jobs[id].status) || s.inFlight[step.call].retryCount < s.jobs[id].retryCount)
    ensures ClaimCurrent(s, step) ==> DelayRefund(s, step, id) == 0
  {
    if Reactivates(s, step, id) {
      DelayIsBackoff(s, step, id);
      var r, j := s.inFlight[step.call], s.jobs[id];
      assert ReadSound(s.jobs, r) && CountInBudget(j);
      Pow2Strict(r.retryCount + 1, j.retryCount + 1);
      Pow2Strict(r.retryCount + 1, r.maxRetries);
      assert Pow2Of(r.retryCount + 2) == 2 * Pow2Of(r.retryCount + 1);
    } else if ClaimCurrent(s, step) {
      StepSpendsDelay(s, step, id);
    } else if id in s.jobs && Active(s.jobs[id].status) {
      Pow2Monotone(s.jobs[id].retryCount + 1, s.jobs[id].maxRetries);
    }
  }

  function DelayRefunds(s: Sys, steps: seq<Step>, id: Id): nat
    decreases |steps|
  {
    if steps == [] then 0 else DelayRefund(s, steps[0], id) + DelayRefunds(Apply(s, steps[0]), steps[1..], id)
  }

  /** In every run, whoever reports what, the delays of a job total at most its budget and these gains. */
  lemma {:induction false} DelaysAreRefunded(s: Sys, steps: seq<Step>, id: Id)
    requires Good(s) && EnabledRun(s, steps)
    ensures TotalDelay(s, steps, id) <= DelayLeft(s, id) + DelayRefunds(s, steps, id)
    ensures ExclusiveRun(s, steps) ==> DelayRefunds(s, steps, id) == 0
    decreases |steps|
  {
    hide Good, Apply, Enabled, ClaimCurrent, DelayRefund, DelayLeft, Delay;
    if steps == [] {
      GoodHasDelay(s, id);
    } else {
      DelaysAreGainedByRefund(s, steps[0], id);
      StepKeepsGood(s, steps[0]);
      DelaysAreRefunded(Apply(s, steps[0]), steps[1..], id);
    }
  }

  lemma DelaysAreBounded(s: Sys, steps: seq<Step>, id: Id)
    requires Good(s) && EnabledRun(s, steps) && ExclusiveRun(s, steps)
    ensures TotalDelay(s, steps, id) <= DelayLeft(s, id)
  {
    DelaysAreRefunded(s, steps, id);
  }

  // ----- every job comes to rest -----

  /** Twice the retries left, plus one while pending; nothing once terminal. */
  function Rank(job: Job): int {
    match job.status
    case Pending => 2 * (job.maxRetries - job.retryCount) + 1
    case Running => 2 * (job.maxRetries - job.retryCount)
    case _ => 0
  }

  predicate Changes(s: Sys, step: Step, id: Id) {
    id in s.jobs && id in Apply(s, step).jobs && Apply(s, step).jobs[id] != s.jobs[id]
  }

  lemma StepLowersRank(s: Sys, step: Step, id: Id)
    requires Good(s) && Enabled(s, step) && ClaimCurrent(s, step) && id in s.jobs
    ensures id in Apply(s, step).jobs && Apply(s, step).jobs[id].maxRetries == s.jobs[id].maxRetries
    ensures Changes(s, step, id) ==> 0 <= Rank(Apply(s, step).jobs[id]) < Rank(s.jobs[id])
    ensures !Active(s.jobs[id].status) ==> !Changes(s, step, id)
  {
  }

  /** What a step adds to the rank, itself counted. */
  function RankRefund(s: Sys, step: Step, id: Id): nat {
    if Changes(s, step, id) && Rank(Apply(s, step).jobs[id]) >= Rank(s.jobs[id])
    then Rank(Apply(s, step).jobs[id]) + 1 - Rank(s.jobs[id]) else 0
  }

  /** The rank fails to drop exactly if a terminal job is changed, or a write grants as much as the job had left. */
  lemma RankIsGainedByRefund(s: Sys, step: Step, id: Id)
    requires Good(s) && Enabled(s, step) && id in s.jobs
    ensures id in Apply(s, step).jobs && Rank(Apply(s, step).jobs[id]) >= 0
    ensures Rank(Apply(s, step).jobs[id]) + (if Changes(s, step, id) then 1 else 0) <= Rank(s.jobs[id]) + RankRefund(s, step, id)
    ensures RankRefund(s, step, id) > 0 <==>
            Changes(s, step, id)
            && (!Active(s.jobs[id].status)
                || (Reactivates(s, step, id) && 2 * Granted(s, step, id) + 1 >= Rank(s.jobs[id])))
    ensures ClaimCurrent(s, step) ==> RankRefund(s, step, id) == 0
  {
  }

  function RankRefunds(s: Sys, steps: seq<Step>, id: Id): nat
    decreases |steps|
  {
    if steps == [] then 0 else RankRefund(s, steps[0], id) + RankRefunds(Apply(s, steps[0]), steps[1..], id)
  }

  function Transitions(s: Sys, steps: seq<Step>, id: Id): nat
    decreases |steps|
  {
    if steps == [] then 0
    else (if Changes(s, steps[0], id) then 1 else 0) + Transitions(Apply(s, steps[0]), steps[1..], id)
  }

  /** In every run, whoever reports what, a job makes at most as many transitions as its rank and these gains allow. */
  lemma {:induction false} TransitionsAreRefunded(s: Sys, steps: seq<Step>, id: Id)
    requires Good(s) && EnabledRun(s, steps) && id in s.jobs
    ensures Transitions(s, steps, id) <= Rank(s.jobs[id]) + RankRefunds(s, steps, id)
    ensures ExclusiveRun(s, steps) ==> RankRefunds(s, steps, id) == 0
    decreases |steps|
  {
    hide Good, Apply, Enabled, ClaimCurrent, RankRefund, Rank, Changes;
    if steps == [] {
      GoodHasRank(s, id);
    } else {
      RankIsGainedByRefund(s, steps[0], id);
      StepKeepsGood(s, steps[0]);
      TransitionsAreRefunded(Apply(s, steps[0]), steps[1..], id);
    }
  }

  lemma GoodHasRank(s: Sys, id: Id)
    requires Good(s) && id in s.jobs
    ensures Rank(s.jobs[id]) >= 0
  {
  }

  /** Every job makes finitely many transitions, and a terminal one makes none. */
  lemma {:induction false} TransitionsAreBounded(s: Sys, steps: seq<Step>, id: Id)
    requires Good(s) && EnabledRun(s, steps) && ExclusiveRun(s, steps) && id in s.jobs
    ensures Transitions(s, steps, id) <= Rank(s.jobs[id])
    ensures !Active(s.jobs[id].status) ==> id in Run(s, steps).jobs && Run(s, steps).jobs[id] == s.jobs[id]
    decreases |steps|
  {
    if steps != [] {
      StepLowersRank(s, steps[0], id);
      StepKeepsGood(s, steps[0]);
      TransitionsAreBounded(Apply(s, steps[0]), steps[1..], id);
    }
  }

  /** Without the restriction a finished job comes back, and is handed out beyond any budget it had. */
  lemma LateReportRevivesFinishedJob(job: Job, r: Read, now: Time)
    requires job.status == Completed && CountInBudget(job)
    requires r.id == 1 && r.maxRetries == job.maxRetries && 0 <= r.retryCount
    ensures var s := Sys(map[1 := job], map[0 := r]);
            Good(s) && DeliveriesLeft(s, 1) == 0 && !ClaimCurrent(s, FailWrite(0, now))
            && (DeliveriesLeft(Apply(s, FailWrite(0, now)), 1) > 0 <==> r.retryCount + 1 < job.maxRetries)
  {
    var s := Sys(map[1 := job], map[0 := r]);
    assert !WriteRefused(s.jobs, r);
  }

  // ----- the bounds are met -----

  /** One claim that fails: handed out when due, then both statements of `fail`. */
  function Failure(s: Sys, id: Id): seq<Step>
    requires id in s.jobs
  {
    var now := s.jobs[id].scheduledAt;
    [Poll(now, Some(id)), FailRead(0, id), FailWrite(0, now)]
  }

  predicate LoneJob(s: Sys, id: Id) {
    s.jobs.Keys == {id} && s.inFlight == map[] && s.jobs[id].status == Pending && CountInBudget(s.jobs[id])
  }

  function AfterOneFailure(s: Sys, id: Id): Sys
    requires id in s.jobs
  {
    var now := s.jobs[id].scheduledAt;
    var job := s.jobs[id].(status := Running, startedAt := Some(now));
    Sys(map[id := AfterFailure(job, Read(id, job.retryCount, job.maxRetries), now)], map[])
  }

  function FailUntilDone(s: Sys, id: Id): seq<Step>
    requires LoneJob(s, id)
    decreases s.jobs[id].maxRetries - s.jobs[id].retryCount
  {
    if RetriesLeft(s.jobs[id]) then Failure(s, id) + FailUntilDone(AfterOneFailure(s, id), id) else Failure(s, id)
  }

  lemma Unfold(s: Sys, step: Step, rest: seq<Step>, id: Id)
    ensures var steps := [step] + rest; var t := Apply(s, step);
            && EnabledRun(s, steps) == (Enabled(s, step) && EnabledRun(t, rest))
            && ExclusiveRun(s, steps) == (ClaimCurrent(s, step) && ExclusiveRun(t, rest))
            && Run(s, steps) == Run(t, rest)
            && Deliveries(steps, id) == (if PollOf(step, id) then 1 else 0) + Deliveries(rest, id)
            && TotalDelay(s, steps, id) == Delay(s, step, id) + TotalDelay(t, rest, id)
  {
    assert ([step] + rest)[1..] == rest;
  }

  lemma OneFailure(s: Sys, id: Id, rest: seq<Step>)
    requires LoneJob(s, id)
    ensures var steps := Failure(s, id) + rest; var t := AfterOneFailure(s, id);
            && EnabledRun(s, steps) == EnabledRun(t, rest)
            && ExclusiveRun(s, steps) == ExclusiveRun(t, rest)
            && Run(s, steps) == Run(t, rest)
            && Deliveries(steps, id) == 1 + Deliveries(rest, id)
            && TotalDelay(s, steps, id) == TotalDelay(t, rest, id)
                 + if RetriesLeft(s.jobs[id]) then Backoff(s.jobs[id].retryCount + 1) else 0
  {
    var now := s.jobs[id].scheduledAt;
    var job := s.jobs[id].(status := Running, startedAt := Some(now));
    var r := Read(id, job.retryCount, job.maxRetries);
    var s1 := Sys(map[id := job], map[]);
    var s2 := Sys(map[id := job], map[0 := r]);
    var f := Failure(s, id);
    assert s.jobs == map[id := s.jobs[id]];
    assert Apply(s, f[0]) == s1;
    assert Apply(s1, f[1]) == s2;
    assert !WriteRefused(s2.jobs, r);
    assert Apply(s2, f[2]) == AfterOneFailure(s, id);
    assert f + rest == [f[0]] + ([f[1]] + ([f[2]] + rest));
    Unfold(s, f[0], [f[1]] + ([f[2]] + rest), id);
    Unfold(s1, f[1], [f[2]] + rest, id);
    Unfold(s2, f[2], rest, id);
  }

  /** A job that fails every time spends both budgets to the last unit. */
  lemma {:induction false} PureFailRunMeetsBounds(s: Sys, id: Id)
    requires LoneJob(s, id)
    ensures var steps := FailUntilDone(s, id);
            && EnabledRun(s, steps) && ExclusiveRun(s, steps)
            && Deliveries(steps, id) == s.jobs[id].maxRetries - s.jobs[id].retryCount
            && TotalDelay(s, steps, id) == Pow2Of(s.jobs[id].maxRetries) - Pow2Of(s.jobs[id].retryCount + 1)
            && Run(s, steps).jobs.Keys == {id} && Run(s, steps).jobs[id].status == Failed
    decreases s.jobs[id].maxRetries - s.jobs[id].retryCount
  {
    if RetriesLeft(s.jobs[id]) {
      var t := AfterOneFailure(s, id);
      OneFailure(s, id, FailUntilDone(t, id));
      PureFailRunMeetsBounds(t, id);
    } else {
      OneFailure(s, id, []);
      assert Failure(s, id) + [] == Failure(s, id);
    }
  }

  // ----- the width of the delay -----

  const I64_LIMIT: nat := 0x8000_0000_0000_0000

  lemma {:induction false} Pow2Adds(a: nat, b: nat)
    ensures Pow2(a + b) == Pow2(a) * Pow2(b)
  {
    if a > 0 {
      Pow2Adds(a - 1, b);
      assert 2 * (Pow2(a - 1) * Pow2(b)) == (2 * Pow2(a - 1)) * Pow2(b);
    }
  }

  lemma Pow2Of63()
    ensures Pow2(63) == I64_LIMIT
  {
    assert Pow2(4) == 16 by { assert Pow2(3) == 8; }
    Pow2Adds(4, 3);
    assert Pow2(7) == 128;
    Pow2Adds(7, 7); Pow2Adds(14, 7); Pow2Adds(21, 21); Pow2Adds(42, 21);
  }

  lemma BackoffFitsI64(n: nat)
    ensures Backoff(n) < I64_LIMIT <==> n <= 62
  {
    Pow2Of63();
    assert Pow2(63) == 2 * Pow2(62);
    if n <= 62 { Pow2Monotone(n, 62); } else { Pow2Monotone(63, n); }
  }

  /** The largest delay a budget can ask for is 2^(max_retries - 1) seconds. */
  lemma DelaysFitI64(maxRetries: nat)
    ensures (forall count | 1 <= count < maxRetries :: Backoff(count) < I64_LIMIT) <==> maxRetries <= 63
  {
    forall count: int | 1 <= count < maxRetries
      ensures Backoff(count) < I64_LIMIT <==> count <= 62
    {
      BackoffFitsI64(count);
    }
    if maxRetries > 63 {
      assert !(Backoff(63) < I64_LIMIT);
    }
  }
}
