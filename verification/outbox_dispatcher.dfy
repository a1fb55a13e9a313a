/** The outbox statements and the dispatcher's batch loop, in the form the worker runs them. */
module OutboxDispatcher {
  import opened Common
  import opened OutboxTable
  import opened OutboxGroups
  import opened OutboxRuns
  import opened OutboxEffects

  datatype Stopped = Stopped

  method GroupByAggregate(events: seq<Event>) returns (groups: seq<Group>)
    ensures groups == Grouping(events)
  {
    groups := [];
    for n := 0 to |events|
      invariant groups == Grouping(events[..n])
    {
      var e := events[n];
      assert events[..n + 1][..n] == events[..n];
      var i := 0;
      while i < |groups| && groups[i].aggregateId != e.aggregateId
        invariant 0 <= i <= |groups| && forall j | 0 <= j < i :: groups[j].aggregateId != e.aggregateId
      {
        i := i + 1;
      }
      AddEventFound(groups, e, i);
      if i < |groups| {
        groups := groups[i := groups[i].(events := groups[i].events + [e])];
      } else {
        groups := groups + [Group(e.aggregateId, [e])];
      }
    }
    assert events[..|events|] == events;
  }

  /** sort_by_key inside each group; on a polled batch it has nothing to do. */
  method SortGroups(groups: seq<Group>) returns (sorted: seq<Group>)
    requires forall g | g in groups :: SortedByTime(g.events)
    ensures sorted == groups
  {
    sorted := groups;
    for i := 0 to |groups|
      invariant sorted == groups
    {
      SortKeepsSorted(groups[i].events);
      sorted := sorted[i := sorted[i].(events := StableSort(sorted[i].events))];
    }
  }

  lemma GroupsAreSorted(events: seq<Event>)
    requires SortedByTime(events)
    ensures forall g | g in Grouping(events) :: SortedByTime(g.events)
  {
    GroupingIsPartition(events);
    forall g | g in Grouping(events) ensures SortedByTime(g.events) {
      SelectSorted(events, g.aggregateId);
    }
  }

  /** Rows marked processed since the table was `before`. */
  function Newly(before: map<Id, Row>, rows: map<Id, Row>): set<Id> {
    set id | id in rows && IsProcessed(rows, id) && !IsProcessed(before, id)
  }

  lemma {:induction false} OthersUntouched(cfg: Config, w: World, events: seq<Event>, outcome: Id -> bool, now: Time,
                                           id: Id)
    requires Known(w, events) && id in w.rows && forall e | e in events :: e.id != id
    ensures DispatchAll(cfg, w, events, outcome, now).rows[id] == w.rows[id]
    decreases |events|
  {
    if events != [] {
      var front := events[..|events| - 1];
      assert events == front + [events[|events| - 1]];
      OthersUntouched(cfg, w, front, outcome, now, id);
    }
  }

  lemma NewlyGrows(start: map<Id, Row>, before: map<Id, Row>, after: map<Id, Row>, id: Id)
    requires id in before && id in after && before[id].processedAt.None? && after == before[id := after[id]]
    requires IsProcessed(after, id) ==> !IsProcessed(start, id)
    ensures |Newly(start, after)| == |Newly(start, before)| + if IsProcessed(after, id) then 1 else 0
  {
    if IsProcessed(after, id) {
      assert Newly(start, after) == Newly(start, before) + {id};
    } else {
      assert Newly(start, after) == Newly(start, before);
    }
  }

  /** The first `n` events are dispatched, and `processed` of them were marked processed. */
  ghost predicate Progress(cfg: Config, w: World, order: seq<Event>, outcome: Id -> bool, now: Time, n: nat,
                           v: World, processed: nat)
  {
    && n <= |order| && Known(w, order[..n]) && v == DispatchAll(cfg, w, order[..n], outcome, now)
    && processed == |Newly(w.rows, v.rows)|
  }

  lemma ProgressStarts(cfg: Config, w: World, order: seq<Event>, outcome: Id -> bool, now: Time)
    ensures Progress(cfg, w, order, outcome, now, 0, w, 0)
  {
    assert Newly(w.rows, w.rows) == {};
  }

  lemma FlattenNone(groups: seq<Group>)
    ensures Flatten(groups[..0]) == []
  {
  }

  /** What the batch comes to if it stops at its `n`th event, or has none left. */
  lemma ProgressStops(cfg: Config, w: World, order: seq<Event>, outcome: Id -> bool, stop: Stop, now: Time, n: nat,
                      v: World, processed: nat)
    requires Ready(w, order) && Progress(cfg, w, order, outcome, now, n, v, processed)
    ensures Known(w, order) && processed == |Newly(w.rows, v.rows)|
    ensures var batch := Batch(cfg, w, order, outcome, stop, now);
            && (n < |order| && stop == Before(n) ==> batch == v)
            && (n < |order| && stop == AfterHandler(n) ==> batch == TryOnly(cfg, v, order[n], outcome))
            && (n == |order| && (stop.AtEnd? || stop.event >= n) ==> batch == v)
  {
    assert n == |order| ==> order[..n] == order;
  }

  /** The next event of a batch finds its row live, and counts when it becomes processed. */
  lemma NextDispatch(cfg: Config, w: World, order: seq<Event>, n: nat, outcome: Id -> bool, now: Time)
    requires Ready(w, order) && n < |order|
    ensures Known(w, order[..n]) && Known(w, order[..n + 1])
    ensures var before := DispatchAll(cfg, w, order[..n], outcome, now);
            var after := DispatchAll(cfg, w, order[..n + 1], outcome, now);
            && after == Dispatch(cfg, before, order[n], outcome, now)
            && order[n].id in before.rows && Live(before.rows[order[n].id])
            && |Newly(w.rows, after.rows)| == |Newly(w.rows, before.rows)|
                 + if IsProcessed(after.rows, order[n].id) then 1 else 0
  {
    var front, e := order[..n], order[n];
    assert order[..n + 1][..n] == front;
    assert e in order;
    OthersUntouched(cfg, w, front, outcome, now, e.id);
    var before := DispatchAll(cfg, w, front, outcome, now);
    var after := Dispatch(cfg, before, e, outcome, now);
    NewlyGrows(w.rows, before.rows, after.rows, e.id);
  }

  lemma ProgressContinues(cfg: Config, w: World, order: seq<Event>, outcome: Id -> bool, now: Time, n: nat, v: World,
                          processed: nat)
    requires Ready(w, order) && n < |order| && Progress(cfg, w, order, outcome, now, n, v, processed)
    ensures order[n].id in v.rows && !IsProcessed(v.rows, order[n].id)
    ensures var next := Dispatch(cfg, v, order[n], outcome, now);
            Progress(cfg, w, order, outcome, now, n + 1, next, processed + if IsProcessed(next.rows, order[n].id) then 1 else 0)
  {
    NextDispatch(cfg, w, order, n, outcome, now);
  }

  class Dispatcher {
    const cfg: Config
    var rows: map<Id, Row>
    ghost var log: seq<Try>

    ghost function View(): World
      reads this
    {
      World(rows, log)
    }

    constructor (cfg: Config, rows: map<Id, Row>)
      ensures this.cfg == cfg && View() == World(rows, [])
    {
      this.cfg := cfg;
      this.rows := rows;
      log := [];
    }

    /** The oldest live rows, oldest first. */
    method PollUnprocessed(limit: nat) returns (events: seq<Event>)
      ensures IsPolled(rows, limit, events)
    {
      events := [];
      var rest := set id | id in rows && Live(rows[id]);
      while rest != {} && |events| < limit
        invariant rest <= rows.Keys && |events| <= limit
        invariant AreRows(rows, events) && DistinctIds(events) && SortedByTime(events)
        invariant forall e | e in events :: Live(rows[e.id]) && e.id !in rest
        invariant forall id | id in rows && Live(rows[id]) :: id in rest || EventOf(rows, id) in events
        invariant forall e, id | e in events && id in rest :: e.createdAt <= rows[id].createdAt
        decreases rest
      {
        var oldest := Oldest(rest);
        events := events + [EventOf(rows, oldest)];
        rest := rest - {oldest};
      }
    }

    method Oldest(ids: set<Id>) returns (oldest: Id)
      requires ids != {} && ids <= rows.Keys
      ensures oldest in ids && forall id | id in ids :: rows[oldest].createdAt <= rows[id].createdAt
    {
      oldest :| oldest in ids;
      var rest := ids - {oldest};
      while rest != {}
        invariant oldest in ids && rest <= ids
        invariant forall id | id in ids - rest :: rows[oldest].createdAt <= rows[id].createdAt
        decreases rest
      {
        var id :| id in rest;
        rest := rest - {id};
        if rows[id].createdAt < rows[oldest].createdAt { oldest := id; }
      }
    }

    method StoreProcessed(id: Id, now: Time)
      modifies this`rows
      ensures rows == MarkProcessed(old(rows), id, now)
      ensures rows == if id in old(rows) then old(rows)[id := old(rows)[id].(processedAt := Some(now))] else old(rows)
    {
      if id in rows { rows := rows[id := rows[id].(processedAt := Some(now))]; }
    }

    method WasProcessed(id: Id) returns (b: bool)
      ensures b <==> id in rows && rows[id].processedAt != None
    {
      b := if id in rows then rows[id].processedAt.Some? else false;
    }

    method StoreFailed(id: Id, now: Time)
      requires id in rows
      modifies this`rows
      ensures rows == MarkFailed(old(rows), id, cfg.maxRetries, now)
      ensures rows == old(rows)[id := rows[id]] && rows[id].retryCount == old(rows)[id].retryCount + 1
      ensures rows[id].failedAt == if rows[id].retryCount < cfg.maxRetries then old(rows)[id].failedAt else Some(now)
      ensures rows[id] == old(rows)[id].(retryCount := rows[id].retryCount, failedAt := rows[id].failedAt)
    {
      var newRetryCount := rows[id].retryCount + 1;
      if newRetryCount >= cfg.maxRetries {
        rows := rows[id := rows[id].(retryCount := newRetryCount, failedAt := Some(now))];
      } else {
        rows := rows[id := rows[id].(retryCount := newRetryCount)];
      }
    }

    /** One event; `dies` tells whether the process stops before the outcome is stored. */
    method ProcessEvent(e: Event, outcome: Id -> bool, dies: bool, now: Time) returns (processed: nat)
      requires e.id in rows
      modifies this
      ensures View() == if dies then TryOnly(cfg, old(View()), e, outcome) else Dispatch(cfg, old(View()), e, outcome, now)
      ensures !dies && old(rows)[e.id].processedAt.None? && old(rows)[e.id].eventType == e.eventType ==>
                rows == old(rows)[e.id := rows[e.id]] && Treated(cfg, old(rows)[e.id], rows[e.id], outcome(e.id), now)
      ensures old(rows)[e.id].processedAt.Some? ==> rows == old(rows) && log == old(log)
      ensures !dies ==> processed == if !old(IsProcessed(rows, e.id)) && IsProcessed(rows, e.id) then 1 else 0
    {
      processed := 0;
      var skip := WasProcessed(e.id);
      if skip { return; }
      var handled := e.eventType in cfg.handlers && outcome(e.id);
      log := log + [Try(e.id, handled)];
      if dies { return; }
      if handled {
        StoreProcessed(e.id, now);
        processed := 1;
      } else {
        StoreFailed(e.id, now);
      }
    }

    /**
     Polls, groups, sorts and dispatches; group by group, event by event.  A call that stops
     early, at a crash or a database error, returns an error and leaves what it had stored.
     */
    method ProcessBatch(limit: nat, outcome: Id -> bool, stop: Stop, now: Time)
        returns (result: Result<nat, Stopped>, ghost round: Round)
      modifies this
      ensures IsRound(old(View()), round) && round.outcome == outcome && round.stop == stop
      ensures Ready(old(View()), Order(round.polled)) && View() == Step(cfg, old(View()), round)
      ensures RowsTreated(cfg, old(rows), rows, round)
      ensures stop.AtEnd? ==> result.Ok?
      ensures result.Ok? ==> result.value == |Newly(old(rows), rows)|
    {
      hide RowsTreated, Treated, IsPolled, Ready, Newly, Dispatch, TryOnly, Batch, Flatten, IsProcessed, Progress, Grouping,
           SortedByTime, StableSort, Select, DispatchAll, Known;
      var events := PollUnprocessed(limit);
      round := Round(limit, events, outcome, stop, now);
      ghost var w := View();
      OrderIsReady(w, round);
      BatchTreatsRows(cfg, w, round);
      var groups := GroupByAggregate(events);
      GroupsAreSorted(events);
      groups := SortGroups(groups);
      ghost var order := Order(events);
      var processed, n := 0, 0;
      ProgressStarts(cfg, w, order, outcome, now);
      assert |Flatten(groups[..0])| == 0 by { FlattenNone(groups); }
      for g := 0 to |groups|
        invariant n == |Flatten(groups[..g])| <= |order|
        invariant !stop.AtEnd? ==> stop.event >= n
        invariant Progress(cfg, w, order, outcome, now, n, View(), processed)
      {
        var members := groups[g].events;
        for k := 0 to |members|
          invariant n == |Flatten(groups[..g])| + k <= |order|
          invariant !stop.AtEnd? ==> stop.event >= n
          invariant Progress(cfg, w, order, outcome, now, n, View(), processed)
        {
          FlattenAt(groups, g, k);
          ProgressStops(cfg, w, order, outcome, stop, now, n, View(), processed);
          ProgressContinues(cfg, w, order, outcome, now, n, View(), processed);
          if stop == Before(n) { return Err(Stopped), round; }
          var p := ProcessEvent(members[k], outcome, stop == AfterHandler(n), now);
          if stop == AfterHandler(n) { return Err(Stopped), round; }
          processed := processed + p;
          n := n + 1;
        }
        FlattenAt(groups, g, |members|);
      }
      assert groups[..|groups|] == groups;
      ProgressStops(cfg, w, order, outcome, stop, now, n, View(), processed);
      return Ok(processed), round;
    }
  }
}
