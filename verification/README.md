# Verification of the activity platform's stateful core

The repository is the backend of a service that imports recorded activities, lets their owners edit routes and
export them, and runs its background work through Postgres tables. This project models the parts whose guarantees
span several functions or a whole run, and proves them in Dafny 4.11. `dafny verify dfyconfig.toml` checks everything.

SQL tables are maps of rows, and each SQL statement is one atomic step. The clock, the outcome of a handler, storage
faults, crashes and the steps of other workers between two statements of a call are parameters. Methods of a class
follow the code statement by statement and are proved against specification functions; the lemmas are about those
functions, and what each main call does is also stated on the columns, without them.

| component | files | what is proved |
|---|---|---|
| job queue | `job_table`, `job_queue_safety`, `job_queue_retries`, `job_queue_columns`, `job_queue_store` | one active job per key, separated polls, no delivery before its backoff is over, delivery, delay and transition bounds, what `enqueue_idempotent` returns |
| outbox | `outbox_table`, `outbox_groups`, `outbox_runs`, `outbox_effects`, `outbox_dispatcher` | stable grouping, processed only by a registered handler, books that balance in every run, the number of batches |
| activity listing | `activity_pages`, `activity_repository`, `base64` | cursor walks over fixed and changing tables, the text of a cursor |
| exports | `export_jobs`, `export_worker`, `export_runs` | job row and object stay consistent across crashes |
| legs | `leg_table`, `leg_repository` | reordering is a list move, and when the table lets it happen |
| route drafts | `route_draft`, `route_replay`, `route_rows`, `route_service` | undo and redo against the geometry, the revision of a replay, what Postgres gives back |
| login states | `oidc_state` | single use and expiry over whole runs |
| file names | `filenames` | the sanitised name, its length, and sanitising twice |

## Where the code does not keep what is promised

Where a promise fails there is a lemma with the failing case and, where the code can keep it, one with the exact
condition under which it does. Two slips are in comments only and are just noted.

- **Legs.** `migrations/20250109000001_create_legs_table.sql:15` makes (activity, leg number) unique, checked row by
  row. The shift in `reorder_legs` moves the neighbour onto the number of the leg that is being moved, so on legs
  numbered 1 to n the call fails unless nothing is to be shifted (`LegTable.ReorderOnListedLegs`). Without that
  constraint in the way the statements are the list move (`LegTable.MovedIsListMove`); what exactly has to be free is
  `LegTable.ShiftIsFree`.
- **Redo from Postgres.** `update` never rewrites a stored operation, but undo swaps the geometry an entry carries. A
  redo therefore restores the stack and not the geometry, and what is applied next builds on the loss. In every run the
  geometry is the replay of exactly those applied operations that are not missing in this way
  (`RouteDraft.StoredGeometryIsEffective`), and `RouteDraft.NothingIsMissing` says when that is all of them. With nothing
  applied right after a redo only the top operation can be missing (`RouteDraft.StoredGeometryIsReplay`).
- **Applying an undone id again.** `update` would keep the first operation under that id while the geometry is that of the
  new one (`RouteDraft.ReapplyIsStoredAsFirst`). The lookup before an apply keeps this from happening
  (`RouteService.RouteDraftService.StoredGeometry`).
- **Replay.** An apply whose operation id is known is answered before the draft in the path is loaded and before its owner is
  compared with the caller, so the answer is about the draft that holds the operation, whoever asks
  (`RouteService.RouteDraftService.PostApply`); every other request answers such a caller that there is no draft.
- **Discarding a draft.** `discard` leaves the revision alone and `update` asks for the revision before the last change,
  so the request always ends in a conflict (`RouteRows.DiscardIsNeverStored`), or at revision 0, where building that
  answer takes one from an unsigned 0, in an overflow if those are checked (`RouteService.RouteDraftService.DeleteDraft`).
- **`enqueue_idempotent`.** The third exit returns an id whether or not its insert took effect. The id names no row exactly
  if the key is taken again in the second window (`JobQueueSafety.EnqueueReturnsActiveRow`), which needs another
  insert or a late `fail` that revives a finished job under that key (`JobQueueSafety.RetryIsLostInSecondWindow`,
  `JobQueueSafety.RevivalLosesRetry`).
- **Backoff.** The comment in `fail` says 2^retry_count seconds; the code takes the count after the failure, so the
  first delay is 2 seconds.
- **Late reports.** `complete` and `fail` do not look at the status. A terminal job becomes active again exactly by a `fail`
  whose read left a retry and whose write meets no other job under the key (`JobQueueRetries.TerminalJobIsRevivedByFail`).
  The bounds on deliveries, delays and transitions then hold with what such reports give back
  (`JobQueueRetries.DeliveriesAreRefunded`, `JobQueueRetries.DelaysAreRefunded`, `JobQueueRetries.TransitionsAreRefunded`),
  which lemmas beside them pin down exactly; reports of the current claim give nothing back. The key and budget
  invariants hold whoever reports.
- **Expiry.** `handle_expire_export` deletes the object before it stores the row. A Ready export has its object if and only if
  no expiry died between the two while it was Ready (`ExportRuns.ReadyHasItsObject`), and an object lost that way never
  comes back (`ExportRuns.InterruptedExpiryLosesObject`).
- **Adoption.** An object found under the key is taken as it is. If the object store kept other bytes than it was sent and
  the attempt died before it read them back, the next attempt completes the row with their digest
  (`ExportRuns.GarbledUploadIsAdopted`). In every run an object is what the attempt that uploaded it generated if and
  only if the store kept what it was sent, and a wrong checksum on a Ready row is never that attempt's own
  (`ExportRuns.ObjectIsWhatWasKept`).
- **File names.** The limit of 100 characters is kept for every name only up to an extension of 93 characters
  (`Filenames.LengthIsBounded`): the default base ignores the limit.
- **Outbox poll.** The comment of `poll_unprocessed` speaks of claiming rows; the statement only selects, so the model has
  one dispatcher.

## Model

| member | source | states |
|---|---|---|
| JobQueueSafety.StepKeepsUniqueKeys | migrations/20250106000001_add_job_idempotency.sql:4-7 | No step of any worker leaves two pending or running jobs with the same type and correlation id; in particular not the write of a stale `fail`. |
| JobQueueSafety.StepKeepsGood | crates/infrastructure/src/job_queue.rs:300-397 | Every enabled step keeps the invariant: unique active keys, retry_count below max_retries for every pending or running job, and counts read by `fail` that a later write cannot misuse. |
| JobQueueSafety.RunKeepsGood | crates/infrastructure/src/job_queue.rs:60-397 | The invariant holds after every interleaving of statements, with no assumption about who reports what. |
| JobQueueColumns.ActiveJobsHaveOwnKeys | migrations/20250106000001_add_job_idempotency.sql:4-7 | In every reachable state two pending or running jobs of one type have different correlation ids. |
| JobQueueSafety.PollsAreSeparated | crates/infrastructure/src/job_queue.rs:219-235 | Between two polls that return the same job lies a fail-to-pending or a timeout reset of that job. |
| JobQueueSafety.KeyIsTakenByInsertOrRevival | crates/infrastructure/src/job_queue.rs:341-393 | A key nobody holds becomes held only by an insert under it, or by a `fail` that makes a finished job of that key pending. |
| JobQueueSafety.EnqueueReturnsActiveRow | crates/infrastructure/src/job_queue.rs:114-188 | The id returned named a non-terminal row of the key at the deciding statement or at the end, if and only if the retry was not lost; a lost retry names no row at all. |
| JobQueueSafety.RetryIsLostInSecondWindow | crates/infrastructure/src/job_queue.rs:161-182 | A lost retry implies an insert or a revival under the key between the lookup and the second insert. |
| JobQueueSafety.RevivalLosesRetry | crates/infrastructure/src/job_queue.rs:161-182 | The blame can lie with a revival alone: a run without any other insert in which the returned id names no row. |
| JobQueueRetries.DeliveriesOnlyDrop | crates/infrastructure/src/job_queue.rs:219-397 | While reports come from the current claim, a poll uses one delivery of a job's budget and no step gives any back. |
| JobQueueRetries.TerminalJobIsRevivedByFail | crates/infrastructure/src/job_queue.rs:341-375 | In every reachable state, for every step: a terminal job becomes active if and only if the step is the write of a `fail` of that job whose read left a retry and that no other job under its key refuses. |
| JobQueueRetries.DeliveriesAreGainedByRefund | crates/infrastructure/src/job_queue.rs:219-397 | A step gives a job more deliveries than it had left if and only if it is such a write and its read grants more; the gain is at most the difference, and none for a report of the current claim. |
| JobQueueRetries.DeliveriesAreRefunded | crates/infrastructure/src/job_queue.rs:219-397 | In every run, whoever reports what, a job is delivered at most as often as what it had left and these gains together allow. |
| JobQueueRetries.DeliveriesAreBounded | crates/infrastructure/src/job_queue.rs:300-397 | In every run in which reports come from the current claim a job is delivered at most max_retries times, counted from any reachable state. |
| JobQueueRetries.StepSpendsDelay | crates/infrastructure/src/job_queue.rs:353-375 | What a step adds to the schedule of a job over the time it runs at comes out of the remaining budget 2^max_retries - 2^(retry_count + 1). |
| JobQueueRetries.DelayIsBackoff | crates/infrastructure/src/job_queue.rs:353-375 | That addition is 2 to the count the write stores, in seconds. |
| JobQueueRetries.DelaysAreBounded | crates/infrastructure/src/job_queue.rs:353-375 | Those delays of a job in such a run total at most that budget, 2^max_retries - 2 for a new job. |
| JobQueueRetries.DelaysAreGainedByRefund | crates/infrastructure/src/job_queue.rs:341-375 | A step gives a job more delay than its budget had left if and only if it is the write of a `fail` that revives a terminal job or read a lower count than the job has. |
| JobQueueRetries.DelaysAreRefunded | crates/infrastructure/src/job_queue.rs:353-375 | In every run, whoever reports what, the delays of a job total at most its budget and these gains, which are none for reports of the current claim. |
| JobQueueRetries.StepLowersRank | crates/infrastructure/src/job_queue.rs:219-397 | Every step that changes a job lowers 2 * (max_retries - retry_count) plus one if pending, zero once terminal; a terminal job is never changed. |
| JobQueueRetries.TransitionsAreBounded | crates/infrastructure/src/job_queue.rs:219-397 | A job makes at most that many transitions in a run, and a terminal job stays as it is to the end. |
| JobQueueRetries.RankIsGainedByRefund | crates/infrastructure/src/job_queue.rs:219-397 | A step that changes a job fails to lower its rank if and only if the job was terminal, or the step is a late write that grants as much as the job had left. |
| JobQueueRetries.TransitionsAreRefunded | crates/infrastructure/src/job_queue.rs:219-397 | In every run, whoever reports what, a job makes at most as many transitions as its rank and these gains allow, which are none for reports of the current claim. |
| JobQueueRetries.LateReportRevivesFinishedJob | crates/infrastructure/src/job_queue.rs:341-375 | A state in which that happens to a completed job, for any counts. |
| JobQueueRetries.PureFailRunMeetsBounds | crates/infrastructure/src/job_queue.rs:341-393 | A job that fails every time meets both bounds exactly and ends failed. |
| JobQueueRetries.DelaysFitI64 | crates/infrastructure/src/job_queue.rs:355-356 | No backoff power overflows i64 if and only if max_retries is at most 63. |
| JobQueueColumns.TakenIsOccupied | migrations/20250106000001_add_job_idempotency.sql:4-7 | The index holds a key exactly if some pending or running row has that type and correlation id. |
| JobQueueColumns.InsertWritesDefaults | crates/infrastructure/src/job_queue.rs:60-213 | Each insert adds one row with the column defaults, due at the given time, or nothing if the key is taken. |
| JobQueueColumns.PollClaimsFirst | crates/infrastructure/src/job_queue.rs:219-235 | A poll may claim a row if and only if it is pending and due, no due pending row has a higher priority, and none of the same priority is scheduled earlier; it may find none only if none is due. |
| JobQueueColumns.CompleteAndCancel | crates/infrastructure/src/job_queue.rs:265-294 | Completing sets the status whatever it was; cancelling sets it for pending and running rows only. |
| JobQueueColumns.SweepsWriteStatus | crates/infrastructure/src/job_queue.rs:300-334 | Both sweeps count the try of each running row past its timeout; with a retry left it is pending again, otherwise failed. |
| JobQueueColumns.FailWritesOutcome | crates/infrastructure/src/job_queue.rs:341-397 | The write of a `fail` makes the row failed once the counts read are spent, and otherwise pending at now + 2^(retry_count + 1) seconds, unless another pending or running row has its key. |
| JobQueueColumns.NoPollBeforeBackoff | crates/infrastructure/src/job_queue.rs:219-375 | In every run no poll returns a job that failed before its backoff is over, unless the write of another `fail` has dated it anew. |
| JobQueueStore.SweepTreatsEachStaleJobOnce | crates/infrastructure/src/job_queue.rs:300-334 | The two updates of an undisturbed sweep treat every stale job exactly once and leave none stale. |
| JobQueueStore.JobQueue.Enqueue | crates/infrastructure/src/job_queue.rs:60-76 | Adds one pending row with the literal column defaults, due now, without a key. |
| JobQueueStore.JobQueue.EnqueueWithCorrelation | crates/infrastructure/src/job_queue.rs:79-105 | Inserts such a row under the key, or fails exactly if a pending or running row has that type and key. |
| JobQueueStore.JobQueue.InsertUnlessTaken | crates/infrastructure/src/job_queue.rs:114-146 | Inserts such a row and counts one, or counts none exactly if the key is taken. |
| JobQueueStore.JobQueue.EnqueueIdempotent | crates/infrastructure/src/job_queue.rs:114-188 | Returns through one of the three exits, whatever other workers do between its statements. |
| JobQueueStore.JobQueue.EnqueueScheduled | crates/infrastructure/src/job_queue.rs:191-213 | Adds one pending row with the column defaults that is due at the given time. |
| JobQueueStore.JobQueue.Poll | crates/infrastructure/src/job_queue.rs:219-235 | Claims a due pending row; every due pending row has at most its priority, and with the same priority no earlier schedule; none only if none is due. The row becomes running and starts now. |
| JobQueueStore.JobQueue.Complete | crates/infrastructure/src/job_queue.rs:265-278 | Sets the status whatever it was. |
| JobQueueStore.JobQueue.Cancel | crates/infrastructure/src/job_queue.rs:281-294 | Cancels a pending or running job and nothing else. |
| JobQueueStore.JobQueue.ResetStale | crates/infrastructure/src/job_queue.rs:300-316 | Every running row past its timeout with a retry left is pending again with one try more, and is counted. |
| JobQueueStore.JobQueue.FailStale | crates/infrastructure/src/job_queue.rs:318-334 | Every other running row past its timeout is failed with one try more, and is counted. |
| JobQueueStore.JobQueue.TimeoutStaleJobs | crates/infrastructure/src/job_queue.rs:300-334 | These two updates with steps of others between them, and the number of rows they matched. |
| JobQueueStore.JobQueue.Fail | crates/infrastructure/src/job_queue.rs:341-397 | After any steps of others between its statements: failed if the counts read are spent, an error and no change if the unique index refuses, otherwise pending at now + 2^(retry_count + 1) seconds; an error for a missing row. |
| OutboxGroups.GroupingIsPartition | crates/infrastructure/src/outbox.rs:263-274 | The search-and-append loop builds a stable partition: distinct ids, each group the batch filtered to its id, every event covered. |
| OutboxGroups.PartitionIsPermutation | crates/infrastructure/src/outbox.rs:263-274 | All groups one after the other are a permutation of the batch. |
| OutboxGroups.PartitionOrder | crates/infrastructure/src/outbox.rs:276-281 | The dispatch order restricted to one aggregate is the batch restricted to it, in order of creation. |
| OutboxGroups.GroupsAppearInBatchOrder | crates/infrastructure/src/outbox.rs:263-274 | Groups stand in the order in which the batch first mentions their aggregates. |
| OutboxGroups.GroupsHoldTheirEvents | crates/infrastructure/src/outbox.rs:263-281 | Group ids are distinct, each group holds only events of its aggregate, and all groups together hold the batch. |
| OutboxGroups.SortKeepsSorted | crates/infrastructure/src/outbox.rs:276-278 | The stable sort inside a group leaves polled events where they are. |
| OutboxRuns.RoundKeepsBooks | crates/infrastructure/src/outbox.rs:259-324 | A batch, stopped anywhere, marks an event processed only after a success and failed only after its budget of failures; one that runs to its end keeps the counts exact. |
| OutboxRuns.RunKeepsBooks | crates/infrastructure/src/outbox.rs:84-324 | The same for every sequence of publications, batches and crashes. |
| OutboxRuns.EveryRunIsAccounted | crates/infrastructure/src/outbox.rs:168-324 | From an empty outbox: processed means a success was tried, failed means max(1, max_retries) failures, and no event is tried more often than that plus the crashes between a handler and its mark; without crashes exactly one success and exactly that many failures. |
| OutboxRuns.BatchesComeToAnEnd | crates/infrastructure/src/outbox.rs:84-324 | In every run, whatever is published in between, at most max(1, max_retries) batches for each event live at the start or published can be non-empty, and one more for each batch that stops early. |
| OutboxRuns.EmptyPollMeansDone | crates/infrastructure/src/outbox.rs:84-101 | With a positive limit the poll is empty if and only if every event is processed or permanently failed. |
| OutboxEffects.PollTakesOldest | crates/infrastructure/src/outbox.rs:84-101 | On the columns: neither processed nor failed rows, ordered by created_at; a row left out is not older than any polled, and the limit is reached. |
| OutboxEffects.DispatchIsInOrder | crates/infrastructure/src/outbox.rs:259-324 | Of two rows of one aggregate in a batch the one dispatched first was not created later. |
| OutboxEffects.BatchTreatsReached | crates/infrastructure/src/outbox.rs:259-324 | A batch, stopped anywhere: each row it reaches is processed now if its type has a handler that returns Ok, and otherwise has one failure more and is closed at the limit; no other row changes, and the handlers called are those of the rows reached and at most one more. |
| OutboxEffects.NoHandlerCountsAsFailure | crates/infrastructure/src/outbox.rs:304-318 | An event without a handler stays unprocessed, whatever handlers answer, and counts a failure that closes it at the limit. |
| OutboxEffects.ProcessedWasHandled | crates/infrastructure/src/outbox.rs:84-324 | In every run from an empty outbox a processed event has a registered handler, and in some batch that reached it that handler returned Ok. |
| OutboxDispatcher.GroupByAggregate | crates/infrastructure/src/outbox.rs:263-274 | The loop over the batch computes the grouping. |
| OutboxDispatcher.SortGroups | crates/infrastructure/src/outbox.rs:276-278 | Sorting the groups of a polled batch changes none of them. |
| OutboxDispatcher.Dispatcher.PollUnprocessed | crates/infrastructure/src/outbox.rs:84-101 | The oldest live rows up to the limit, oldest first, leaving out only rows that are not older. |
| OutboxDispatcher.Dispatcher.StoreProcessed | crates/infrastructure/src/outbox.rs:132-145 | Sets the time of processing of that row. |
| OutboxDispatcher.Dispatcher.WasProcessed | crates/infrastructure/src/outbox.rs:148-162 | Whether the row is there and carries a time of processing. |
| OutboxDispatcher.Dispatcher.StoreFailed | crates/infrastructure/src/outbox.rs:168-214 | Counts one failure more and closes the row once the count reaches the limit; nothing else changes. |
| OutboxDispatcher.Dispatcher.ProcessEvent | crates/infrastructure/src/outbox.rs:284-321 | One event: processed now if its type has a handler that returns Ok, otherwise one failure more, closed at the limit; skipped if it was processed, and unchanged if the process dies first. |
| OutboxDispatcher.Dispatcher.ProcessBatch | crates/infrastructure/src/outbox.rs:259-324 | Polls, groups and dispatches as the specification says, also when it dies before an event or between handler and mark; exactly the rows reached are processed, if handled, or charged a failure, and the count returned is the number of rows newly processed. |
| ActivityPages.WhereClauseIsStrictlyAfter | crates/infrastructure/src/activity_persistence.rs:134-211 | In each of the three query shapes the conditions select exactly the visible rows strictly after the cursor, nulls last. |
| ActivityPages.BeforeIsTotalOrder | crates/infrastructure/src/activity_persistence.rs:149-149 | `started_at DESC NULLS LAST, id DESC` is a strict total order on keys. |
| ActivityPages.SortedIsUnique | crates/infrastructure/src/activity_persistence.rs:149-149 | Only one listing of a set of rows is in that order. |
| ActivityPages.PageIsPrefix | crates/infrastructure/src/activity_persistence.rs:213-229 | A page is the front of the listing after its cursor, has_more says whether anything is left, and the next cursor is the key the page ends with. |
| ActivityPages.PageShowsColumns | crates/infrastructure/src/activity_persistence.rs:134-211 | On the columns: a page holds at most p rows, only of that owner and not deleted, started_at descending with nulls last, ids descending, all behind the cursor in that order. |
| ActivityPages.PageIsInterval | crates/infrastructure/src/activity_persistence.rs:213-229 | A page holds exactly the rows from its cursor to its next cursor, also for rows that come and go. |
| ActivityPages.SteadyIsReturnedOnce | crates/infrastructure/src/activity_persistence.rs:103-229 | In a completed walk over a table that changes between pages, an activity that keeps its key and stays visible is returned exactly once, even if the rows the cursors came from are deleted. |
| ActivityPages.NextQueryIsRest | crates/infrastructure/src/activity_persistence.rs:110-229 | On a fixed table the query of the next cursor lists exactly what the page left. |
| ActivityPages.PagesListEverything | crates/infrastructure/src/activity_persistence.rs:110-229 | On a fixed table the pages together are the owner's visible activities in order, without gap or duplicate. |
| ActivityPages.WalkShowsColumns | crates/infrastructure/src/activity_persistence.rs:103-229 | Following the cursors from the first page returns each row of the owner that is not deleted exactly once, and no other row. |
| ActivityPages.PagesAreFew | crates/infrastructure/src/activity_persistence.rs:110-229 | That takes max(1, ceil(n / p)) pages. |
| ActivityPages.EmptyPageHasNoCursor | crates/infrastructure/src/activity_persistence.rs:213-229 | A page size of 0 would promise more rows and give no cursor; the query handler clamps it away. |
| ActivityPages.Clamp | crates/app/src/activity_catalog/queries.rs:48-59 | The page size passed on is the allowed size, 1 to 100, nearest to the one asked for, and 25 if none is. |
| ActivityRepository.PgActivityRepository.Save | crates/infrastructure/src/activity_persistence.rs:259-290 | Inserts one row, or fails exactly if the id exists. |
| ActivityRepository.PgActivityRepository.Update | crates/infrastructure/src/activity_persistence.rs:292-325 | Rewrites the row but its owner; a missing row is no error. |
| ActivityRepository.PgActivityRepository.Delete | crates/infrastructure/src/activity_persistence.rs:327-346 | Marks the row deleted and keeps it; it leaves every listing of every owner, and no other row does. |
| ActivityRepository.PgActivityRepository.Fetch | crates/infrastructure/src/activity_persistence.rs:134-211 | ORDER BY with LIMIT: the front of the one listing in order. |
| ActivityRepository.PgActivityRepository.List | crates/infrastructure/src/activity_persistence.rs:103-229 | One row more is fetched than asked for, and the page is the one the lemmas are about. |
| Base64.DecodeReversesEncode | crates/app/src/activity_catalog/queries.rs:80-208 | Decoding what was encoded gives it back, for every sequence of bytes. |
| Base64.DecodedIsTheNumber | crates/app/src/activity_catalog/queries.rs:181-208 | Between characters the decoder's bytes and buffer together are the number the characters spell in base 64; the buffer holds at most six bits. |
| Base64.FeedKeepsBalance | crates/app/src/activity_catalog/queries.rs:187-205 | One character keeps that balance, and the buffer never leaves 32 bits. |
| Base64.RefusedIffForeign | crates/app/src/activity_catalog/queries.rs:187-195 | A text is refused if and only if a character outside the alphabet precedes the padding. |
| Base64.AlphabetCodes | crates/app/src/activity_catalog/queries.rs:105-105 | The alphabet is Table 1 of RFC 4648, in ASCII codes. |
| Base64.EncodeReversesDecodeOfCanonical | crates/app/src/activity_catalog/queries.rs:181-208 | For every text that decodes: encoding gives it back if and only if it fills its last block, has at most two characters of padding, and the left-over bits are zero. |
| Base64.Base64Encoder.EncodeBlock | crates/app/src/activity_catalog/queries.rs:122-160 | Appends the characters of the bytes that wait, and empties the buffer only when it was full. |
| Base64.Base64Encoder.Write | crates/app/src/activity_catalog/queries.rs:163-178 | After any number of writes the full blocks are in the output and the rest is in the buffer. |
| Base64.Base64Encoder.Finish | crates/app/src/activity_catalog/queries.rs:116-120 | The text is the encoding of everything written. |
| Base64.EncodeText | crates/app/src/activity_catalog/queries.rs:80-90 | Writing all bytes and finishing gives a text that decodes to them. |
| Base64.DecodeText | crates/app/src/activity_catalog/queries.rs:181-208 | The decoder accepts exactly the texts over the alphabet, and gives the digits in base 256 of the number they spell without its left-over bits. |
| ExportRuns.RunIsSound | crates/infrastructure/src/export_worker.rs:259-488 | In every state reached by attempts that may crash anywhere, requests and expiries, every row and its object are consistent. |
| ExportRuns.ReadyHasItsObject | crates/infrastructure/src/export_worker.rs:443-488 | In every run a Ready export has its object if and only if no expiry died between its writes while the export was Ready; an object that is there has the stored digest, and none is written twice. |
| ExportRuns.InterruptedExpiryLosesObject | crates/app/src/exports/commands.rs:127-157 | After an expiry that died while the export was Ready, the row stays Ready or Expired and the object stays missing for the rest of the run. |
| ExportRuns.EndedExportsStay | crates/infrastructure/src/export_worker.rs:282-357 | Terminal rows and existing objects are changed by no attempt; only expiry touches them. |
| ExportRuns.OneGoodAttemptIsEnough | crates/infrastructure/src/export_worker.rs:282-488 | Wherever earlier attempts died, one attempt without faults on a queued or generating export and a generatable route of at most 500000 points ends Ready, with the checksum of the object that is there, for 86400 seconds. |
| ExportRuns.ObjectIsWhatWasKept | crates/infrastructure/src/export_worker.rs:273-488 | In every run an object was stored by an attempt at its export, and is what that attempt generated if and only if the object store kept what it was sent; a Ready checksum is that of the generated bytes exactly if the digests agree, and otherwise a later attempt adopted the object. |
| ExportRuns.UploadsAreGenerated | crates/infrastructure/src/export_worker.rs:389-455 | In every run each upload was made by an attempt under the key of its export, from a parsed route of at most 500000 points, and is what the generator gave for that route. |
| ExportRuns.GarbledUploadIsAdopted | crates/infrastructure/src/export_worker.rs:273-318 | The run in which that fails, for any route, any other bytes and any retry: a garbled upload, a crash, and a retry that ends Ready with the digest of the wrong bytes. |
| ExportRuns.FailsOnlyWithoutBytes | crates/infrastructure/src/export_worker.rs:359-441 | Without faults a row ends Failed exactly if it was Failed, or was queued or generating, had no object, and the route is not parsed, has more than 500000 points, or the generator gives no file. |
| ExportJobs.FaultFreeIsHandled | crates/infrastructure/src/export_worker.rs:273-488 | The specification of an attempt without faults, on the route alone: no geometry, bad geometry, more than 500000 points, a generator error, panic or timeout each end Failed with that reason and store nothing; a file is stored and the row Ready with its digest for 24 hours; ended rows stay, and an object that is there is adopted. |
| ExportWorker.Worker.Persist | crates/infrastructure/src/export_worker.rs:175-203 | Rewrites the whole row unless the fault says the statement did not take effect. |
| ExportWorker.Worker.MarkFailed | crates/infrastructure/src/export_worker.rs:500-530 | Fails an open row at best and changes nothing else; a terminal row is left alone. |
| ExportWorker.Worker.Adopt | crates/infrastructure/src/export_worker.rs:273-318 | The path with an existing object evolves the row as the invariant allows, and completes an open row with the digest of what is stored. |
| ExportWorker.Worker.Publish | crates/infrastructure/src/export_worker.rs:443-488 | Upload and confirmation under any faults, for whatever the store keeps; done means Ready with an object of the right digest, and a row made Ready here always has it. |
| ExportWorker.Worker.Confirm | crates/infrastructure/src/export_worker.rs:457-488 | Reading back and comparing leaves the row as it was, failed, or Ready with the digest that was expected and found. |
| ExportWorker.Worker.Generate | crates/infrastructure/src/export_worker.rs:359-488 | From geometry to Ready, or to Failed with the reason the route gives: more than 500000 points is refused before anything is generated or stored. |
| ExportWorker.Worker.Start | crates/infrastructure/src/export_worker.rs:320-488 | The row decides first: a Ready one is done, a Failed or Expired one is refused, an open one is generated. |
| ExportWorker.Worker.Process | crates/infrastructure/src/export_worker.rs:259-488 | One delivery under any faults is a step the run lemmas allow; without faults the status, the object and the route decide the outcome, the refusal reason and both stores; when it dies right after its upload what it leaves is stated exactly. |
| ExportWorker.Worker.HandleExpire | crates/app/src/exports/commands.rs:127-157 | Every call is the expiry step of the run lemmas, for rows of every status; it succeeds exactly for an Expired row and for a Ready one if it does not die. |
| LegTable.MovedIsListMove | crates/infrastructure/src/leg_persistence.rs:185-260 | The effect of the shift and the final update is: take the leg out of the list and put it in at the new place; numbers stay 1 to n and other activities stay as they are. |
| LegTable.MovedBackRestores | crates/infrastructure/src/leg_persistence.rs:185-260 | Moving the leg back restores every number, on any table with unique numbers. |
| LegTable.MoveBackRestores | crates/infrastructure/src/leg_persistence.rs:185-260 | The list move from j to i undoes the one from i to j. |
| LegTable.MoveToKeepsMembers | crates/infrastructure/src/leg_persistence.rs:185-260 | A list move loses and repeats no leg. |
| LegTable.NeighbourBlocksReorder | migrations/20250109000001_create_legs_table.sql:15-15 | A neighbour on the side the leg moves to makes the shift fail, whatever order the rows are visited in. |
| LegTable.FreeReorderMoves | crates/infrastructure/src/leg_persistence.rs:204-260 | If no shifted leg meets a held number every visit order succeeds with the same result. |
| LegTable.BusyShiftCanFail | crates/infrastructure/src/leg_persistence.rs:204-260 | And if one does, some visit order fails. |
| LegTable.ShiftedReorderMoves | crates/infrastructure/src/leg_persistence.rs:204-260 | A shift that went through has freed the new number, so the last update cannot fail. |
| LegTable.ReorderOnListedLegs | crates/infrastructure/src/leg_persistence.rs:185-260 | On legs numbered 1 to n the call succeeds if and only if the position is the leg's own, or it is the last leg and moves further back. |
| LegRepository.RenumberIsFree | crates/app/src/recorded_activity/leg_commands.rs:157-183 | Renumbering lowest first always moves a leg onto a number nobody holds. |
| LegRepository.RenumberedIsNumbered | crates/app/src/recorded_activity/leg_commands.rs:157-183 | Positive, unique numbers are kept at every point of the renumbering. |
| LegRepository.PgLegRepository.ListLegs | crates/infrastructure/src/leg_persistence.rs:58-76 | The activity's legs, each once, by number. |
| LegRepository.PgLegRepository.FindLeg | crates/infrastructure/src/leg_persistence.rs:78-95 | The leg with that id, if there is one. |
| LegRepository.PgLegRepository.SaveLeg | crates/infrastructure/src/leg_persistence.rs:97-122 | Inserts the leg, or fails exactly if its id or its number is taken. |
| LegRepository.PgLegRepository.UpdateLeg | crates/infrastructure/src/leg_persistence.rs:124-147 | Rewrites the leg, or fails exactly if its new number is taken; a missing leg is no error. |
| LegRepository.PgLegRepository.DeleteLeg | crates/infrastructure/src/leg_persistence.rs:149-163 | Removes that leg only. |
| LegRepository.PgLegRepository.NextLegNumber | crates/infrastructure/src/leg_persistence.rs:165-183 | One more than the highest number, 1 if there is no leg. |
| LegRepository.PgLegRepository.ReorderLegs | crates/infrastructure/src/leg_persistence.rs:185-260 | The statements give the moved table or an error that changes nothing. |
| LegRepository.PgLegRepository.AddLeg | crates/app/src/recorded_activity/leg_commands.rs:21-61 | Stores the leg behind the highest number or answers exactly which check failed, the limit before the title; legs numbered 1 to n stay so. |
| LegRepository.PgLegRepository.RemoveLeg | crates/app/src/recorded_activity/leg_commands.rs:157-183 | What is left is numbered 1 to n in its old order; other activities stay as they are. |
| RouteDraft.StepKeepsSound | crates/app/src/route_editing/draft.rs:101-192 | Each request keeps every entry's geometry the one its operation starts from, or leads to once it is undone. |
| RouteDraft.GeometryIsReplay | crates/app/src/route_editing/draft.rs:101-192 | In every run in memory the geometry is the base with exactly the applied operations performed on it. |
| RouteDraft.RedoRevertsUndo | crates/app/src/route_editing/draft.rs:136-174 | Undo and redo take each other back, but for the revision. |
| RouteDraft.UndoingAllRestoresBase | crates/infrastructure/src/route_editing_persistence.rs:349-400 | After every run through Postgres that applies no undone id again, undoing every applied operation gives the base geometry. |
| RouteDraft.GeometryIsReplayWithoutRedo | crates/infrastructure/src/route_editing_persistence.rs:349-400 | Through Postgres the geometry is the replay of the applied operations as long as nothing is redone and no undone id is applied again, from any draft of which that holds. |
| RouteDraft.StoredRedoLosesOperation | crates/infrastructure/src/route_editing_persistence.rs:349-400 | Undo and redo through Postgres restore the stacks but leave the geometry the operation started from. |
| RouteDraft.StoredRedoIsSoundOnlyForNoOps | crates/infrastructure/src/route_editing_persistence.rs:349-400 | From any stored draft whose geometry and stacks agree, one redo leaves the geometry alone, which is the replay of the applied operations if and only if the redone operation changes nothing. |
| RouteDraft.StoredGeometryIsEffective | crates/infrastructure/src/route_editing_persistence.rs:349-400 | In every run through Postgres with any undos, redos, resets and applies that reuse no undone id: the geometry is the replay of exactly those applied operations that no redo has lost. |
| RouteDraft.NothingIsMissing | crates/infrastructure/src/route_editing_persistence.rs:349-400 | None is lost if and only if the draft and every entry above the bottom one were left complete. |
| RouteDraft.StoredGeometryIsReplay | crates/infrastructure/src/route_editing_persistence.rs:349-400 | In particular, if nothing is applied right after a redo: the replay of all applied operations, or after one or more redos of all but the top one, with the exact condition under which those agree. |
| RouteDraft.ApplyAfterRedoLosesOperation | crates/infrastructure/src/route_editing_persistence.rs:349-400 | What is applied right after a redo is stored right if and only if it makes the same of the geometry with and without the redone operation. |
| RouteDraft.ReapplyIsStoredAsFirst | crates/infrastructure/src/route_editing_persistence.rs:349-373 | An operation applied under an undone id is stored as the undone one, which is right if and only if both make the same of the geometry. |
| RouteReplay.GapNeverShrinks | crates/app/src/route_editing/draft.rs:101-192 | Revision minus stack depth never decreases, and grows exactly on undo and reset. |
| RouteReplay.RunIsDated | crates/app/src/route_editing/draft.rs:101-192 | In every run each entry on a stack stands no higher than the revision it produced, also when it comes back by redo. |
| RouteReplay.ReplayNeverExceedsOriginal | crates/api/src/route_editing.rs:458-480 | In every run, in memory or through Postgres, the replayed revision is at most the one the operation produced, and equal to it exactly if nothing was undone or reset before. |
| RouteReplay.BornIsAnswer | crates/api/src/route_editing.rs:517-535 | The revision recorded for an operation is the one its request was answered with. |
| RouteRows.StoredIsUnique | crates/infrastructure/src/route_editing_persistence.rs:92-172 | Rows determine the draft: no two drafts are stored as the same rows. |
| RouteRows.WriteIsGuarded | crates/infrastructure/src/route_editing_persistence.rs:282-318 | The write goes through exactly if the stored revision is one below the draft's, and then only that draft's columns change; otherwise it is a conflict. |
| RouteRows.UpdateStoresPersisted | crates/infrastructure/src/route_editing_persistence.rs:279-437 | An update writes the draft it is given, except that operations already stored keep what they were first stored with. |
| RouteRows.SuccessIsStored | crates/infrastructure/src/route_editing_persistence.rs:279-437 | After a successful request, an undone id applied again included, the next load gives the draft with its entries as first stored, and no other draft loads differently. |
| RouteRows.OtherStaysStored | crates/infrastructure/src/route_editing_persistence.rs:279-437 | Writing one draft leaves the rows of every other draft alone. |
| RouteRows.StaleWriteConflicts | crates/infrastructure/src/route_editing_persistence.rs:282-318 | A write computed from an earlier load goes through if and only if the draft is still exactly the one that was loaded. |
| RouteRows.RetryConflicts | crates/app/src/route_editing/draft.rs:235-243 | In every run a request sent again with the revision it succeeded at is a revision conflict and changes nothing, whatever happened in between. |
| RouteRows.DiscardIsNeverStored | crates/app/src/route_editing/draft.rs:202-207 | Storing a discarded draft is always a revision conflict. |
| RouteService.RouteDraftService.CreateDraft | crates/infrastructure/src/route_editing_persistence.rs:176-232 | A valid geometry starts a draft at revision 0 and disturbs no other draft. |
| RouteService.RouteDraftService.Load | crates/infrastructure/src/route_editing_persistence.rs:92-172 | Reading the rows by sequence number gives the outcome of the requests that succeeded. |
| RouteService.RouteDraftService.StoredGeometry | crates/api/src/route_editing.rs:393-697 | Whatever requests were made of the service, the geometry is the replay of the applied operations that no redo has lost, and undoing everything leads back to the base; no run of the service applies an undone id again. |
| RouteService.RouteDraftService.PostApply | crates/api/src/route_editing.rs:393-536 | Every outcome: a bad key, a bad operation, a draft of someone else, one that is not active, a revision other than the expected one, a rejected operation, each without any change; a new operation, which raises the revision by one and empties the redo stack; and a known one, which is answered with its place on the stack, never more than its first answer, with a mismatch if the operation differs, or with the current state if it is undone. |
| RouteService.RouteDraftService.Replayed | crates/api/src/route_editing.rs:411-496 | The answer for a stored operation, found by its index on the applied stack. |
| RouteService.RouteDraftService.PostUndo | crates/api/src/route_editing.rs:545-585 | For an active draft of the caller at the expected revision: the geometry before the last operation, one revision more, the operation on the redo stack. Any other revision is a conflict, and no refusal changes anything. |
| RouteService.RouteDraftService.PostRedo | crates/api/src/route_editing.rs:591-631 | The same for the last undone operation, with the geometry its row remembers. |
| RouteService.RouteDraftService.PostReset | crates/api/src/route_editing.rs:639-697 | The fetched base geometry, empty stacks and one revision more, under the same conditions; ownership is checked before the base is looked up. |
| RouteService.RouteDraftService.DeleteDraft | crates/api/src/route_editing.rs:702-731 | Never succeeds and never changes anything; an active draft of the caller answers with a revision conflict, or at revision 0 with an overflow if those are checked. |
| OidcState.SameAnswerWithCleanup | crates/infrastructure/src/oidc_state_store.rs:51-78 | Under a clock that never runs backwards, lookups with and without cleanup agree, and both are the answer read off the calls so far. |
| OidcState.ConsumedAtMostOnce | crates/infrastructure/src/oidc_state_store.rs:66-78 | No store is consumed successfully twice. |
| OidcState.SourceIsRedeemable | crates/infrastructure/src/oidc_state_store.rs:66-78 | The reference answer comes from exactly such a store. |
| OidcState.CleanupDropsExpired | crates/infrastructure/src/oidc_state_store.rs:53-55 | Cleanup drops only entries that had expired by the last call. |
| OidcState.KeptIsLastStore | crates/infrastructure/src/oidc_state_store.rs:51-78 | A state is in the table that is never cleaned exactly if the last call about it was a store. |
| OidcState.OidcStateStore.StoreState | crates/infrastructure/src/oidc_state_store.rs:51-64 | Afterwards only unexpired entries remain, if and only if the lifetime is positive. |
| OidcState.OidcStateStore.ConsumeState | crates/infrastructure/src/oidc_state_store.rs:66-78 | Gives a pair exactly if some store of that state has no later call about it and is within its lifetime, and then the pair of that store; forgets the state either way. |
| Filenames.TrimmedIsJoined | crates/api/src/exports.rs:374-400 | Mapping, collapsing and trimming amount to joining the alphanumeric runs by single hyphens. |
| Filenames.JoinedKeepsCharacters | crates/api/src/exports.rs:374-400 | No alphanumeric character is lost, added or moved. |
| Filenames.BaseIsClean | crates/api/src/exports.rs:402-417 | The base has no hyphen at its ends and no two in a row, is a prefix of the joined runs cut by at most one character more than needed, and is "export" exactly when nothing is left. |
| Filenames.FilenameIsPortable | crates/api/src/exports.rs:374-417 | In character codes the base has only ASCII letters and digits, with single hyphens between them. |
| Filenames.AlphanumericCodes | crates/api/src/exports.rs:374-382 | The characters kept are exactly ASCII letters and digits, by their codes. |
| Filenames.LengthIsBounded | crates/api/src/exports.rs:371-417 | The result has at most 100 characters if and only if the extension has at most 93, or at most 98 and the name has an alphanumeric character. |
| Filenames.SanitisingTwice | crates/api/src/exports.rs:371-417 | Sanitising the base again gives the same name, with the exact condition. |
| Filenames.SanitizeFilename | crates/api/src/exports.rs:371-417 | The loops compute that name; an extension of 100 characters or more underflows. |

## Left out

- Integer widths, except for the backoff power and the Base64 buffer; counts, revisions and numbers are unbounded.
- Row locks: a poll is one atomic step, so no due row is hidden from it by SKIP LOCKED.
- Database errors other than the unique violations, missing rows and revision conflicts named above; for the outbox and
  the export worker a failing statement is a stop or a fault.
- UUIDs are assumed to be new when they are drawn.
- Overlapping export attempts, concurrent `reorder_legs` calls and concurrent removals of legs: calls run one at a time.
- LegRepository.PgLegRepository.ReorderLegs: the activity passed is taken to be the leg's own, as its caller ensures; position 0 is refused before the call (`crates/app/src/recorded_activity/leg_commands.rs:120-151`).
- LegRepository.PgLegRepository.AddLeg: trimming and measuring the title is a parameter.
- LegRepository.PgLegRepository.UpdateLeg: a leg is never moved to another activity.
- The visit order of the leg shift and ties in the polls are chosen freely, as a database may.
- GPX generation, SHA-256 and geometry operations are parameters; the geometry JSON parser is a flag and a number of points.
- A cursor's JSON and its timestamps as text; only the Base64 layer is modelled, on bytes.
- Base64.Base64Encoder.EncodeBlock: shifts and masks are written as division and remainder, and the alphabet as a function of the position.
- Filenames.SanitizeFilename: characters stand for bytes, so extensions are taken to be ASCII.
- RouteService.RouteDraftService.PostApply: how a key is read and an operation converted is a parameter; a request is atomic here, and what happens between its load and its write is RouteRows.StaleWriteConflicts.
- RouteService.RouteDraftService.CreateDraft: the lookup of an existing active draft and the gateways are left out.
- Publishing drafts, route versions, imports and the commit of an import, sessions, tokens and rate limits.
- HTTP routing, serialisation, error mapping, metrics, configuration and the frontend: single branches and plumbing.
