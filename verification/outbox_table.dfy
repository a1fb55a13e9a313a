/** The outbox rows, the polled batch, and what dispatching one event does. */
module OutboxTable {
  import opened Common

  datatype Row = Row(
    aggregateId: string, eventType: string, createdAt: Time,
    processedAt: Option<Time>, failedAt: Option<Time>, retryCount: int)

  /** What the handlers see of a row. */
  datatype Event = Event(id: Id, aggregateId: string, eventType: string, createdAt: Time)

  /** A handler call, or the verdict that no handler exists; not stored anywhere. */
  datatype Try = Try(id: Id, ok: bool)

  /** The table and the history of tries. */
  datatype World = World(rows: map<Id, Row>, log: seq<Try>)

  /** The dispatcher's configuration. */
  datatype Config = Config(handlers: seq<string>, maxRetries: int)

  predicate Live(r: Row) {
    r.processedAt.None? && r.failedAt.None?
  }

  function EventOf(rows: map<Id, Row>, id: Id): Event
    requires id in rows
  {
    Event(id, rows[id].aggregateId, rows[id].eventType, rows[id].createdAt)
  }

  /** What every retry budget comes to: at least one try is always made. */
  function Budget(cfg: Config): nat {
    if cfg.maxRetries >= 1 then cfg.maxRetries else 1
  }

  // ----- poll_unprocessed -----

  predicate SortedByTime(events: seq<Event>) {
    forall i, j | 0 <= i < j < |events| :: events[i].createdAt <= events[j].createdAt
  }

  predicate DistinctIds(events: seq<Event>) {
    forall i, j | 0 <= i < j < |events| :: events[i].id != events[j].id
  }

  predicate AreRows(rows: map<Id, Row>, events: seq<Event>) {
    forall e | e in events :: e.id in rows && e == EventOf(rows, e.id)
  }

  /** An answer of the poll: the oldest `limit` live rows, oldest first, ties either way. */
  ghost predicate IsPolled(rows: map<Id, Row>, limit: nat, events: seq<Event>) {
    && AreRows(rows, events) && (forall e | e in events :: Live(rows[e.id]))
    && DistinctIds(events) && SortedByTime(events)
    && |events| <= limit
    && (forall id | id in rows && Live(rows[id]) && EventOf(rows, id) !in events ::
          |events| == limit && forall e | e in events :: e.createdAt <= rows[id].createdAt)
  }

  // ----- one event -----

  function MarkProcessed(rows: map<Id, Row>, id: Id, now: Time): map<Id, Row>
  {
    if id in rows then rows[id := rows[id].(processedAt := Some(now))] else rows
  }

  function MarkFailed(rows: map<Id, Row>, id: Id, maxRetries: int, now: Time): map<Id, Row>
    requires id in rows
  {
    var count := rows[id].retryCount + 1;
    rows[id := if count >= maxRetries then rows[id].(retryCount := count, failedAt := Some(now))
               else rows[id].(retryCount := count)]
  }

  predicate IsProcessed(rows: map<Id, Row>, id: Id) {
    id in rows && rows[id].processedAt.Some?
  }

  /** The event finds a handler, and the handler returns Ok. */
  predicate Succeeds(cfg: Config, e: Event, outcome: Id -> bool) {
    e.eventType in cfg.handlers && outcome(e.id)
  }

  function Dispatch(cfg: Config, w: World, e: Event, outcome: Id -> bool, now: Time): World
    requires e.id in w.rows
  {
    if IsProcessed(w.rows, e.id) then w
    else
      var ok := Succeeds(cfg, e, outcome);
      World(if ok then MarkProcessed(w.rows, e.id, now) else MarkFailed(w.rows, e.id, cfg.maxRetries, now),
            w.log + [Try(e.id, ok)])
  }

  predicate Known(w: World, events: seq<Event>) {
    forall e | e in events :: e.id in w.rows
  }

  function DispatchAll(cfg: Config, w: World, events: seq<Event>, outcome: Id -> bool, now: Time): (r: World)
    requires Known(w, events)
    ensures r.rows.Keys == w.rows.Keys
  {
    if events == [] then w
    else
      var e := events[|events| - 1];
      assert forall x | x in events[..|events| - 1] :: x in events;
      var w' := DispatchAll(cfg, w, events[..|events| - 1], outcome, now);
      Dispatch(cfg, w', e, outcome, now)
  }

  // ----- a batch that may stop early -----

  /** Where a batch stops: not at all, before an event, or between its handler and the mark. */
  datatype Stop = AtEnd | Before(event: nat) | AfterHandler(event: nat)

  /** The try that was made before the process died, when its outcome was not yet stored. */
  function TryOnly(cfg: Config, w: World, e: Event, outcome: Id -> bool): World {
    if IsProcessed(w.rows, e.id) then w else w.(log := w.log + [Try(e.id, Succeeds(cfg, e, outcome))])
  }

  function Batch(cfg: Config, w: World, order: seq<Event>, outcome: Id -> bool, stop: Stop, now: Time): World
    requires Known(w, order)
  {
    match stop
    case AtEnd => DispatchAll(cfg, w, order, outcome, now)
    case Before(k) =>
      if k >= |order| then DispatchAll(cfg, w, order, outcome, now)
      else assert Known(w, order[..k]); DispatchAll(cfg, w, order[..k], outcome, now)
    case AfterHandler(k) =>
      if k >= |order| then DispatchAll(cfg, w, order, outcome, now)
      else assert Known(w, order[..k]); TryOnly(cfg, DispatchAll(cfg, w, order[..k], outcome, now), order[k], outcome)
  }
}
