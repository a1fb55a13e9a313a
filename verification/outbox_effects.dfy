/** What a batch does to the columns of the rows it reaches, and which handlers it calls. */
module OutboxEffects {
  import opened Common
  import opened OutboxTable
  import opened OutboxGroups
  import opened OutboxRuns

  /** The events a batch deals with before it ends or stops. */
  function Reached(round: Round): seq<Event> {
    var order := Order(round.polled);
    if round.stop.AtEnd? || round.stop.event >= |order| then order else order[..round.stop.event]
  }

  /** Handled: processed now.  No handler, or one that failed: one more failure, closed at the limit. */
  predicate Treated(cfg: Config, r: Row, t: Row, ok: bool, now: Time) {
    t == if r.eventType in cfg.handlers && ok then r.(processedAt := Some(now))
         else r.(retryCount := r.retryCount + 1,
                 failedAt := if r.retryCount + 1 >= cfg.maxRetries then Some(now) else r.failedAt)
  }

  predicate Mentions(events: seq<Event>, id: Id) {
    exists i :: 0 <= i < |events| && events[i].id == id
  }

  /** The handler calls for these events, in order. */
  function Calls(cfg: Config, events: seq<Event>, outcome: Id -> bool): seq<Try> {
    seq(|events|, i requires 0 <= i < |events| => Try(events[i].id, events[i].eventType in cfg.handlers && outcome(events[i].id)))
  }

  /** The poll on the columns: live rows, oldest first, and a live row is left out only by older ones up to the limit. */
  lemma PollTakesOldest(rows: map<Id, Row>, limit: nat, events: seq<Event>)
    requires IsPolled(rows, limit, events)
    ensures |events| <= limit
    ensures forall e | e in events :: e.id in rows && rows[e.id].processedAt.None? && rows[e.id].failedAt.None?
    ensures forall i, j | 0 <= i < j < |events| ::
              events[i].id != events[j].id && rows[events[i].id].createdAt <= rows[events[j].id].createdAt
    ensures forall id | id in rows && rows[id].processedAt.None? && rows[id].failedAt.None? && !Mentions(events, id) ::
              |events| == limit && forall e | e in events :: rows[e.id].createdAt <= rows[id].createdAt
  {
    forall id | id in rows && Live(rows[id]) && !Mentions(events, id) ensures EventOf(rows, id) !in events {
      assert forall i | 0 <= i < |events| :: events[i].id != id;
    }
    assert forall i | 0 <= i < |events| :: events[i] in events;
  }

  /** Of two events of one aggregate, by their rows, the one dispatched first was not created later. */
  lemma DispatchIsInOrder(w: World, round: Round, i: nat, j: nat)
    requires IsRound(w, round) && i < j < |Order(round.polled)|
    ensures var (a, b) := (Order(round.polled)[i].id, Order(round.polled)[j].id);
            && a in w.rows && b in w.rows && a != b
            && (w.rows[a].aggregateId == w.rows[b].aggregateId ==> w.rows[a].createdAt <= w.rows[b].createdAt)
  {
    ReachedIsReady(w, round.(stop := AtEnd));
    var order := Order(round.polled);
    assert order[i] in order && order[j] in order;
    GroupingIsPartition(round.polled);
    PartitionOrder(Grouping(round.polled), round.polled, order[j].aggregateId);
    if order[i].aggregateId == order[j].aggregateId { SelectSortedPairs(order, i, j); }
  }

  lemma DispatchTreats(cfg: Config, w: World, e: Event, outcome: Id -> bool, now: Time)
    requires e.id in w.rows && e == EventOf(w.rows, e.id) && w.rows[e.id].processedAt.None?
    ensures var t := Dispatch(cfg, w, e, outcome, now);
            && t.rows == w.rows[e.id := t.rows[e.id]] && Treated(cfg, w.rows[e.id], t.rows[e.id], outcome(e.id), now)
            && t.log == w.log + [Try(e.id, e.eventType in cfg.handlers && outcome(e.id))]
  {
  }

  lemma MentionsOneMore(events: seq<Event>, id: Id)
    requires events != []
    ensures Mentions(events, id) <==> Mentions(Front(events), id) || Last(events).id == id
  {
    if Mentions(Front(events), id) {
      var i :| 0 <= i < |events| - 1 && Front(events)[i].id == id;
      assert events[i].id == id;
    }
    if Mentions(events, id) {
      var i :| 0 <= i < |events| && events[i].id == id;
      assert i < |events| - 1 ==> Front(events)[i].id == id;
    }
  }

  lemma FrontIsReady(w: World, events: seq<Event>)
    requires Ready(w, events) && AreRows(w.rows, events) && events != []
    ensures Ready(w, Front(events)) && AreRows(w.rows, Front(events)) && !Mentions(Front(events), Last(events).id)
    ensures var e := Last(events); e.id in w.rows && e == EventOf(w.rows, e.id) && Live(w.rows[e.id])
  {
    assert Last(events) in events && forall x | x in Front(events) :: x in events;
  }

  lemma {:induction false} DispatchAllTreats(cfg: Config, w: World, events: seq<Event>, outcome: Id -> bool, now: Time, id: Id)
    requires Ready(w, events) && AreRows(w.rows, events) && id in w.rows
    ensures var t := DispatchAll(cfg, w, events, outcome, now);
            && id in t.rows
            && (if Mentions(events, id) then Treated(cfg, w.rows[id], t.rows[id], outcome(id), now) else t.rows[id] == w.rows[id])
            && t.log == w.log + Calls(cfg, events, outcome)
    decreases |events|
  {
    if events != [] {
      var front, e := Front(events), Last(events);
      FrontIsReady(w, events);
      DispatchAllTreats(cfg, w, front, outcome, now, id);
      DispatchAllTreats(cfg, w, front, outcome, now, e.id);
      MentionsOneMore(events, id);
      hide Mentions, Ready, AreRows, Dispatch, Treated;
      var m := DispatchAll(cfg, w, front, outcome, now);
      DispatchTreats(cfg, m, e, outcome, now);
      assert Calls(cfg, events, outcome)
          == Calls(cfg, front, outcome) + [Try(e.id, e.eventType in cfg.handlers && outcome(e.id))];
    }
  }

  lemma ReachedIsReady(w: World, round: Round)
    requires IsRound(w, round)
    ensures Ready(w, Order(round.polled)) && Ready(w, Reached(round)) && AreRows(w.rows, Reached(round))
  {
    OrderIsReady(w, round);
    var order := Order(round.polled);
    assert forall e | e in order :: e in multiset(order);
    assert forall e | e in Reached(round) :: e in order;
    if !round.stop.AtEnd? && round.stop.event < |order| { PrefixIsReady(w, order, round.stop.event); }
  }

  /** Exactly the rows of the events reached are treated. */
  ghost predicate RowsTreated(cfg: Config, before: map<Id, Row>, after: map<Id, Row>, round: Round) {
    forall id | id in before ::
      && id in after
      && if Mentions(Reached(round), id) then Treated(cfg, before[id], after[id], round.outcome(id), round.now)
         else after[id] == before[id]
  }

  lemma BatchTreatsRows(cfg: Config, w: World, round: Round)
    requires IsRound(w, round)
    ensures Ready(w, Order(round.polled)) && RowsTreated(cfg, w.rows, Step(cfg, w, round).rows, round)
  {
    ReachedIsReady(w, round);
    forall id | id in w.rows
      ensures var t := Step(cfg, w, round).rows;
              && id in t
              && if Mentions(Reached(round), id) then Treated(cfg, w.rows[id], t[id], round.outcome(id), round.now)
                 else t[id] == w.rows[id]
    {
      BatchTreatsReached(cfg, w, round, id);
    }
  }

  /** A batch treats the rows of the events it reaches, and those only; it calls their handlers, and perhaps one more. */
  lemma BatchTreatsReached(cfg: Config, w: World, round: Round, id: Id)
    requires IsRound(w, round) && id in w.rows
    ensures Ready(w, Order(round.polled))
    ensures var t := Step(cfg, w, round);
            && id in t.rows
            && (if Mentions(Reached(round), id) then Treated(cfg, w.rows[id], t.rows[id], round.outcome(id), round.now)
                else t.rows[id] == w.rows[id])
            && w.log + Calls(cfg, Reached(round), round.outcome) <= t.log
            && |t.log| <= |w.log| + |Reached(round)| + (if round.stop.AfterHandler? then 1 else 0)
  {
    ReachedIsReady(w, round);
    DispatchAllTreats(cfg, w, Reached(round), round.outcome, round.now, id);
  }

  /** An event without a handler is not processed by a batch that reaches it, whatever handlers answer. */
  lemma NoHandlerCountsAsFailure(cfg: Config, w: World, round: Round, id: Id)
    requires IsRound(w, round) && id in w.rows && w.rows[id].eventType !in cfg.handlers
    ensures Ready(w, Order(round.polled))
    ensures var r, t := w.rows[id], Step(cfg, w, round).rows;
            && id in t && t[id].processedAt == r.processedAt
            && (Mentions(Reached(round), id) ==>
                  t[id].retryCount == r.retryCount + 1 && (r.retryCount + 1 >= cfg.maxRetries ==> t[id].failedAt == Some(round.now)))
  {
    BatchTreatsReached(cfg, w, round, id);
  }

  /** In this run some batch polled the event while its handler would return Ok. */
  ghost predicate OnceHandled(actions: seq<Action>, id: Id) {
    exists k :: 0 <= k < |actions| && actions[k].Dispatching? && Mentions(Reached(actions[k].round), id) && actions[k].round.outcome(id)
  }

  lemma {:induction false} ProcessedSince(cfg: Config, w: World, actions: seq<Action>, id: Id)
    requires CanRun(cfg, w, actions) && id in RunAll(cfg, w, actions).rows
    ensures var r := RunAll(cfg, w, actions).rows[id];
            && (id in w.rows ==> r.eventType == w.rows[id].eventType)
            && (r.processedAt.Some? ==>
                  (id in w.rows && w.rows[id].processedAt.Some?)
                  || (r.eventType in cfg.handlers && OnceHandled(actions, id)))
    decreases |actions|
  {
    if actions != [] {
      var a, rest := actions[0], actions[1..];
      var w' := Act(cfg, w, a);
      ProcessedSince(cfg, w', rest, id);
      if OnceHandled(rest, id) {
        var k :| 0 <= k < |rest| && rest[k].Dispatching? && Mentions(Reached(rest[k].round), id) && rest[k].round.outcome(id);
        assert actions[k + 1] == rest[k];
      }
      if a.Dispatching? && id in w.rows {
        BatchTreatsReached(cfg, w, a.round, id);
        if w.rows[id].processedAt.None? && w'.rows[id].processedAt.Some? {
          assert actions[0].Dispatching? && Mentions(Reached(actions[0].round), id) && actions[0].round.outcome(id);
        }
      }
      if a.Dispatching? { RowsAreKept(cfg, w, a.round); }
    }
  }

  lemma RowsAreKept(cfg: Config, w: World, round: Round)
    requires IsRound(w, round)
    ensures Ready(w, Order(round.polled)) && Step(cfg, w, round).rows.Keys == w.rows.Keys
  {
    OrderIsReady(w, round);
  }

  /** In every run a processed event has a registered handler, which in some batch that reached the event returned Ok. */
  lemma ProcessedWasHandled(cfg: Config, actions: seq<Action>, id: Id)
    requires CanRun(cfg, World(map[], []), actions) && id in RunAll(cfg, World(map[], []), actions).rows
    ensures var r := RunAll(cfg, World(map[], []), actions).rows[id];
            r.processedAt.Some? ==> r.eventType in cfg.handlers && OnceHandled(actions, id)
  {
    ProcessedSince(cfg, World(map[], []), actions, id);
  }
}
