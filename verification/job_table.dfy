/**
 The job table and the SQL statements that change it.  A statement is one atomic step;
 a call that issues several statements can be interleaved with steps of other workers
 between any two of them.
 */
module JobTable {
  import opened Common

  datatype Status = Pending | Running | Completed | Failed | Cancelled

  /** The statuses the partial unique index covers. */
  predicate Active(s: Status) {
    s == Pending || s == Running
  }

  datatype Job = Job(
    jobType: string,
    correlation: Option<Id>,
    status: Status,
    priority: int,
    retryCount: int,
    maxRetries: int,
    scheduledAt: Time,
    startedAt: Option<Time>,
    timeoutSeconds: int)

  // Column defaults of platform.jobs.
  const DEFAULT_MAX_RETRIES := 3
  const DEFAULT_PRIORITY := 0
  const DEFAULT_TIMEOUT := 300

  /** What the first statement of a `fail` call has read and not yet used. */
  datatype Read = Read(id: Id, retryCount: int, maxRetries: int)

  /** The table, and the `fail` calls that are between their two statements. */
  datatype Sys = Sys(jobs: map<Id, Job>, inFlight: map<Id, Read>)

  datatype Step =
    | Insert(id: Id, jobType: string, correlation: Option<Id>, at: Time)
    | InsertIgnore(id: Id, jobType: string, key: Id, at: Time)
    | Poll(now: Time, picked: Option<Id>)
    | Complete(id: Id)
    | Cancel(id: Id)
    | TimeoutReset(now: Time)
    | TimeoutFail(now: Time)
    | FailRead(call: Id, id: Id)
    | FailWrite(call: Id, now: Time)

  function NewJob(jobType: string, correlation: Option<Id>, at: Time): Job {
    Job(jobType, correlation, Pending, DEFAULT_PRIORITY, 0, DEFAULT_MAX_RETRIES, at, None, DEFAULT_TIMEOUT)
  }

  /** Row `id` is covered by the unique index under this key. */
  predicate HoldsKey(jobs: map<Id, Job>, id: Id, jobType: string, key: Id) {
    id in jobs && Active(jobs[id].status) && jobs[id].jobType == jobType && jobs[id].correlation == Some(key)
  }

  /** Some row other than `except` is covered by the unique index under this key. */
  predicate KeyTaken(jobs: map<Id, Job>, jobType: string, correlation: Option<Id>, except: Option<Id>) {
    correlation.Some? && exists id :: id in jobs && Some(id) != except && HoldsKey(jobs, id, jobType, correlation.value)
  }

  /** The delay, in seconds, before the attempt that follows failure number `n`. */
  function Backoff(n: int): nat {
    if n < 0 then 0 else Pow2(n)
  }

  // ----- poll -----

  predicate Due(job: Job, now: Time) {
    job.status == Pending && job.scheduledAt <= now
  }

  /** `a` comes strictly before `b` under priority DESC, scheduled_at ASC. */
  predicate Beats(a: Job, b: Job) {
    a.priority > b.priority || (a.priority == b.priority && a.scheduledAt < b.scheduledAt)
  }

  /** `picked` is a row the poll statement may choose: ties are broken either way. */
  predicate IsPick(jobs: map<Id, Job>, now: Time, picked: Option<Id>) {
    match picked
    case None => forall id | id in jobs :: !Due(jobs[id], now)
    case Some(p) => p in jobs && Due(jobs[p], now) && forall id | id in jobs && Due(jobs[id], now) :: !Beats(jobs[id], jobs[p])
  }

  // ----- timeouts -----

  /** Running past its timeout; a NULL started_at never compares. */
  predicate Stale(job: Job, now: Time) {
    job.status == Running && job.startedAt.Some? && job.startedAt.value + job.timeoutSeconds * SECOND < now
  }

  predicate RetriesLeft(job: Job) {
    job.retryCount + 1 < job.maxRetries
  }

  function TimedOut(job: Job): Job {
    job.(status := if RetriesLeft(job) then Pending else Failed, retryCount := job.retryCount + 1)
  }

  // ----- the second statement of fail -----

  /** The row the write leaves, computed from what the earlier read saw. */
  function AfterFailure(job: Job, r: Read, now: Time): Job {
    var count := r.retryCount + 1;
    if count < r.maxRetries then
      job.(status := Pending, retryCount := count, scheduledAt := now + Backoff(count) * SECOND)
    else
      job.(status := Failed, retryCount := count)
  }

  /** The write is refused by the unique index, and changes nothing. */
  predicate WriteRefused(jobs: map<Id, Job>, r: Read) {
    r.id in jobs && r.retryCount + 1 < r.maxRetries
    && KeyTaken(jobs, jobs[r.id].jobType, jobs[r.id].correlation, Some(r.id))
  }

  // ----- steps -----

  /** A step the database can take; only poll restricts its outcome. */
  predicate Enabled(s: Sys, step: Step) {
    step.Poll? ==> IsPick(s.jobs, step.now, step.picked)
  }

  function Put(s: Sys, id: Id, job: Job): Sys {
    s.(jobs := s.jobs[id := job])
  }

  /** A statement that breaks the primary key or the unique index leaves the table unchanged. */
  function Apply(s: Sys, step: Step): Sys {
    match step
    case Insert(id, jobType, correlation, at) =>
      if id in s.jobs || KeyTaken(s.jobs, jobType, correlation, None) then s
      else Put(s, id, NewJob(jobType, correlation, at))
    case InsertIgnore(id, jobType, key, at) =>
      if id in s.jobs || KeyTaken(s.jobs, jobType, Some(key), None) then s
      else Put(s, id, NewJob(jobType, Some(key), at))
    case Poll(now, picked) =>
      if picked.None? || picked.value !in s.jobs then s
      else Put(s, picked.value, s.jobs[picked.value].(status := Running, startedAt := Some(now)))
    case Complete(id) =>
      if id !in s.jobs then s else Put(s, id, s.jobs[id].(status := Completed))
    case Cancel(id) =>
      if id !in s.jobs || !Active(s.jobs[id].status) then s else Put(s, id, s.jobs[id].(status := Cancelled))
    case TimeoutReset(now) =>
      s.(jobs := map id | id in s.jobs ::
          if Stale(s.jobs[id], now) && RetriesLeft(s.jobs[id]) then TimedOut(s.jobs[id]) else s.jobs[id])
    case TimeoutFail(now) =>
      s.(jobs := map id | id in s.jobs ::
          if Stale(s.jobs[id], now) && !RetriesLeft(s.jobs[id]) then TimedOut(s.jobs[id]) else s.jobs[id])
    case FailRead(call, id) =>
      if id !in s.jobs then s
      else s.(inFlight := s.inFlight[call := Read(id, s.jobs[id].retryCount, s.jobs[id].maxRetries)])
    case FailWrite(call, now) =>
      if call !in s.inFlight then s
      else
        var r := s.inFlight[call];
        var s' := s.(inFlight := s.inFlight - {call});
        if r.id !in s.jobs || WriteRefused(s.jobs, r) then s' else Put(s', r.id, AfterFailure(s.jobs[r.id], r, now))
  }

  function Run(s: Sys, steps: seq<Step>): Sys
    decreases |steps|
  {
    if steps == [] then s else Run(Apply(s, steps[0]), steps[1..])
  }

  predicate EnabledRun(s: Sys, steps: seq<Step>)
    decreases |steps|
  {
    steps == [] || (Enabled(s, steps[0]) && EnabledRun(Apply(s, steps[0]), steps[1..]))
  }

  // ----- enqueue_idempotent -----

  /** The arguments of a call, the ids it draws, and what others do in its two windows. */
  datatype EnqueueCall = EnqueueCall(
    id: Id, retryId: Id, jobType: string, key: Id, at: Time, retryAt: Time,
    window1: seq<Step>, window2: seq<Step>)

  datatype Exit = Inserted | Found | Retried

  /** How a call left, the id it returned, and the table when the deciding statement ran and after the call. */
  datatype EnqueueOutcome = EnqueueOutcome(exit: Exit, id: Id, decided: Sys, end: Sys)

  function FirstInsert(c: EnqueueCall): Step { InsertIgnore(c.id, c.jobType, c.key, c.at) }

  function SecondInsert(c: EnqueueCall): Step { InsertIgnore(c.retryId, c.jobType, c.key, c.retryAt) }

  /** The table at the lookup, and at the second insert, of a call that gets that far. */
  function AtLookup(s: Sys, c: EnqueueCall): Sys { Run(Apply(s, FirstInsert(c)), c.window1) }

  function AtRetry(s: Sys, c: EnqueueCall): Sys { Run(AtLookup(s, c), c.window2) }

  /** Every UUID a call draws is new when the statement that uses it runs. */
  predicate FreshIds(s: Sys, c: EnqueueCall) {
    c.id !in s.jobs && c.retryId !in AtRetry(s, c).jobs
  }

  predicate EnabledWindows(s: Sys, c: EnqueueCall) {
    EnabledRun(Apply(s, FirstInsert(c)), c.window1) && EnabledRun(AtLookup(s, c), c.window2)
  }

  /** The three exits; the last one does not look at whether its insert took effect. */
  ghost predicate IsEnqueueOutcome(s: Sys, c: EnqueueCall, o: EnqueueOutcome) {
    var inserted := Apply(s, FirstInsert(c));
    if c.id in inserted.jobs then
      o == EnqueueOutcome(Inserted, c.id, inserted, inserted)
    else if exists id :: HoldsKey(AtLookup(s, c).jobs, id, c.jobType, c.key) then
      o.exit == Found && HoldsKey(AtLookup(s, c).jobs, o.id, c.jobType, c.key)
      && o.decided == o.end == AtLookup(s, c)
    else
      o == EnqueueOutcome(Retried, c.retryId, AtRetry(s, c), Apply(AtRetry(s, c), SecondInsert(c)))
  }
}
