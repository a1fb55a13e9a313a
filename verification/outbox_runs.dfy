/** What holds over whole runs of the dispatcher: accounting of tries, and that it comes to an end. */
module OutboxRuns {
  import opened Common
  import opened OutboxTable
  import opened OutboxGroups

  /** One call of process_batch: what the poll answered, what handlers do, and where it stops. */
  datatype Round = Round(limit: nat, polled: seq<Event>, outcome: Id -> bool, stop: Stop, now: Time)

  /** The order in which a batch is dispatched. */
  function Order(polled: seq<Event>): seq<Event> {
    Flatten(Grouping(polled))
  }

  ghost predicate IsRound(w: World, round: Round) {
    IsPolled(w.rows, round.limit, round.polled)
  }

  /** The events about to be dispatched: live, each with its own id. */
  ghost predicate Ready(w: World, events: seq<Event>) {
    DistinctIds(events) && forall e | e in events :: e.id in w.rows && Live(w.rows[e.id])
  }

  lemma OrderIsReady(w: World, round: Round)
    requires IsRound(w, round)
    ensures Ready(w, Order(round.polled))
    ensures multiset(Order(round.polled)) == multiset(round.polled)
  {
    GroupingIsPartition(round.polled);
    PartitionIsPermutation(Grouping(round.polled), round.polled);
    SameIdsDistinct(round.polled, Order(round.polled));
    assert forall e | e in Order(round.polled) :: e in multiset(round.polled);
  }

  lemma SameIdsDistinct(a: seq<Event>, b: seq<Event>)
    requires multiset(a) == multiset(b) && DistinctIds(a)
    ensures DistinctIds(b)
  {
    forall i, j | 0 <= i < j < |b| ensures b[i].id != b[j].id {
      assert b[i] in multiset(b) && b[j] in multiset(b);
      if b[i] == b[j] {
        TwiceInside(b, i, j);
        var k :| 0 <= k < |a| && a[k] == b[i];
        OnceInside(a, k);
      }
    }
  }

  lemma TwiceInside(s: seq<Event>, i: nat, j: nat)
    requires i < j < |s| && s[i] == s[j]
    ensures multiset(s)[s[i]] >= 2
  {
    assert s == s[..j] + s[j..];
    assert s[i] in s[..j] && s[j] in s[j..];
  }

  lemma OnceInside(s: seq<Event>, i: nat)
    requires i < |s| && DistinctIds(s)
    ensures multiset(s)[s[i]] == 1
  {
    assert s == s[..i] + [s[i]] + s[i + 1..];
    assert s[i] !in s[..i] && s[i] !in s[i + 1..];
  }

  function Step(cfg: Config, w: World, round: Round): World
    requires Known(w, Order(round.polled))
  {
    Batch(cfg, w, Order(round.polled), round.outcome, round.stop, round.now)
  }

  // ----- tries and rows agree -----

  function Tries(log: seq<Try>, id: Id, ok: bool): nat {
    if log == [] then 0
    else Tries(log[..|log| - 1], id, ok) + if log[|log| - 1] == Try(id, ok) then 1 else 0
  }

  /** Holds whatever crashes: processed only after a success, failed only after a spent budget. */
  predicate RowAccounted(cfg: Config, r: Row, log: seq<Try>, id: Id) {
    && (r.processedAt.Some? ==> Tries(log, id, true) >= 1)
    && (r.failedAt.Some? <==> r.retryCount == Budget(cfg))
    && 0 <= r.retryCount <= Tries(log, id, false) && r.retryCount <= Budget(cfg)
    && (r.processedAt.None? || r.failedAt.None?)
  }

  /** Holds when no batch stops early: every try left its mark. */
  predicate RowExact(r: Row, log: seq<Try>, id: Id) {
    r.retryCount == Tries(log, id, false) && Tries(log, id, true) == (if r.processedAt.Some? then 1 else 0)
  }

  ghost predicate Accounted(cfg: Config, w: World) {
    forall id | id in w.rows :: RowAccounted(cfg, w.rows[id], w.log, id)
  }

  ghost predicate Exact(w: World) {
    forall id | id in w.rows :: RowExact(w.rows[id], w.log, id)
  }

  lemma DispatchOne(cfg: Config, w: World, e: Event, outcome: Id -> bool, now: Time)
    requires Accounted(cfg, w) && e.id in w.rows && Live(w.rows[e.id])
    ensures var w' := Dispatch(cfg, w, e, outcome, now);
            && w'.rows.Keys == w.rows.Keys
            && Accounted(cfg, w') && (Exact(w) ==> Exact(w'))
            && forall id | id in w.rows && id != e.id :: w'.rows[id] == w.rows[id]
  {
    var w' := Dispatch(cfg, w, e, outcome, now);
    var try := w'.log[|w'.log| - 1];
    assert w'.log[..|w'.log| - 1] == w.log;
    forall id | id in w.rows
      ensures RowAccounted(cfg, w'.rows[id], w'.log, id)
      ensures Exact(w) ==> RowExact(w'.rows[id], w'.log, id)
    {
      assert RowAccounted(cfg, w.rows[id], w.log, id);
      assert Exact(w) ==> RowExact(w.rows[id], w.log, id);
    }
  }

  lemma {:induction false} DispatchSeveral(cfg: Config, w: World, events: seq<Event>, outcome: Id -> bool, now: Time)
    requires Accounted(cfg, w) && Ready(w, events)
    ensures var w' := DispatchAll(cfg, w, events, outcome, now);
            && w'.rows.Keys == w.rows.Keys
            && Accounted(cfg, w') && (Exact(w) ==> Exact(w'))
            && forall id | id in w.rows && (forall e | e in events :: e.id != id) :: w'.rows[id] == w.rows[id]
    decreases |events|
  {
    if events != [] {
      var front, e := events[..|events| - 1], events[|events| - 1];
      assert events == front + [e];
      DispatchSeveral(cfg, w, front, outcome, now);
      DispatchOne(cfg, DispatchAll(cfg, w, front, outcome, now), e, outcome, now);
    }
  }

  lemma TryOnlyIsAccounted(cfg: Config, w: World, e: Event, outcome: Id -> bool)
    requires Accounted(cfg, w)
    ensures Accounted(cfg, TryOnly(cfg, w, e, outcome))
  {
    var w' := TryOnly(cfg, w, e, outcome);
    if w' != w {
      assert w'.log[..|w'.log| - 1] == w.log;
      forall id | id in w'.rows ensures RowAccounted(cfg, w'.rows[id], w'.log, id) {
        assert RowAccounted(cfg, w.rows[id], w.log, id);
      }
    }
  }

  lemma PrefixIsReady(w: World, events: seq<Event>, k: nat)
    requires Ready(w, events) && k <= |events|
    ensures Ready(w, events[..k])
  {
  }

  /** One batch keeps the books, wherever it stops; one that runs to its end keeps them exactly. */
  lemma RoundKeepsBooks(cfg: Config, w: World, round: Round)
    requires Accounted(cfg, w) && IsRound(w, round)
    ensures Ready(w, Order(round.polled))
    ensures var w' := Step(cfg, w, round);
            Accounted(cfg, w') && w'.rows.Keys == w.rows.Keys && (round.stop.AtEnd? && Exact(w) ==> Exact(w'))
  {
    OrderIsReady(w, round);
    var order := Order(round.polled);
    DispatchSeveral(cfg, w, order, round.outcome, round.now);
    if !round.stop.AtEnd? && round.stop.event < |order| {
      PrefixIsReady(w, order, round.stop.event);
      var front := order[..round.stop.event];
      DispatchSeveral(cfg, w, front, round.outcome, round.now);
      TryOnlyIsAccounted(cfg, DispatchAll(cfg, w, front, round.outcome, round.now), order[round.stop.event], round.outcome);
    }
  }

  // ----- runs with publishing in between -----

  datatype Action = Publish(id: Id, aggregateId: string, eventType: string, createdAt: Time) | Dispatching(round: Round)

  ghost predicate CanAct(w: World, a: Action) {
    match a
    case Publish(id, _, _, _) => id !in w.rows && Tries(w.log, id, true) == Tries(w.log, id, false) == 0
    case Dispatching(round) => IsRound(w, round)
  }

  ghost function Act(cfg: Config, w: World, a: Action): World
    requires CanAct(w, a)
  {
    match a
    case Publish(id, agg, ty, at) => w.(rows := w.rows[id := Row(agg, ty, at, None, None, 0)])
    case Dispatching(round) => OrderIsReady(w, round); Step(cfg, w, round)
  }

  ghost predicate CanRun(cfg: Config, w: World, actions: seq<Action>)
    decreases |actions|
  {
    actions == [] || (CanAct(w, actions[0]) && CanRun(cfg, Act(cfg, w, actions[0]), actions[1..]))
  }

  ghost function RunAll(cfg: Config, w: World, actions: seq<Action>): World
    requires CanRun(cfg, w, actions)
    decreases |actions|
  {
    if actions == [] then w else RunAll(cfg, Act(cfg, w, actions[0]), actions[1..])
  }

  predicate NoCrash(actions: seq<Action>) {
    forall i | 0 <= i < |actions| :: actions[i].Dispatching? ==> actions[i].round.stop.AtEnd?
  }

  lemma ActKeepsBooks(cfg: Config, w: World, a: Action)
    requires Accounted(cfg, w) && CanAct(w, a)
    ensures Accounted(cfg, Act(cfg, w, a))
    ensures (a.Dispatching? ==> a.round.stop.AtEnd?) && Exact(w) ==> Exact(Act(cfg, w, a))
  {
    if a.Dispatching? {
      RoundKeepsBooks(cfg, w, a.round);
    } else {
      var w' := Act(cfg, w, a);
      forall id | id in w'.rows
        ensures RowAccounted(cfg, w'.rows[id], w'.log, id)
        ensures Exact(w) ==> RowExact(w'.rows[id], w'.log, id)
      {
        if id != a.id {
          assert RowAccounted(cfg, w.rows[id], w.log, id);
          assert Exact(w) ==> RowExact(w.rows[id], w.log, id);
        }
      }
    }
  }

  lemma {:induction false} RunKeepsBooks(cfg: Config, w: World, actions: seq<Action>)
    requires Accounted(cfg, w) && CanRun(cfg, w, actions)
    ensures Accounted(cfg, RunAll(cfg, w, actions))
    ensures NoCrash(actions) && Exact(w) ==> Exact(RunAll(cfg, w, actions))
    decreases |actions|
  {
    if actions != [] {
      ActKeepsBooks(cfg, w, actions[0]);
      assert NoCrash(actions) ==> NoCrash(actions[1..]) && (actions[0].Dispatching? ==> actions[0].round.stop.AtEnd?);
      RunKeepsBooks(cfg, Act(cfg, w, actions[0]), actions[1..]);
    }
  }

  // ----- tries that left no mark -----

  /** All tries but `lost` of them left their mark on the row. */
  predicate RowCovered(r: Row, log: seq<Try>, id: Id, lost: nat) {
    Tries(log, id, true) + Tries(log, id, false) <= r.retryCount + (if r.processedAt.Some? then 1 else 0) + lost
  }

  ghost predicate Covered(w: World, lost: nat) {
    forall id | id in w.rows :: RowCovered(w.rows[id], w.log, id, lost)
  }

  lemma DispatchKeepsCover(cfg: Config, w: World, e: Event, outcome: Id -> bool, now: Time, lost: nat)
    requires Covered(w, lost) && e.id in w.rows
    ensures Covered(Dispatch(cfg, w, e, outcome, now), lost) && Covered(TryOnly(cfg, w, e, outcome), lost + 1)
  {
    var w', t := Dispatch(cfg, w, e, outcome, now), TryOnly(cfg, w, e, outcome);
    if !IsProcessed(w.rows, e.id) { assert Front(w'.log) == w.log && Front(t.log) == w.log; }
    forall id | id in w.rows
      ensures RowCovered(w'.rows[id], w'.log, id, lost) && RowCovered(t.rows[id], t.log, id, lost + 1)
    {
      assert RowCovered(w.rows[id], w.log, id, lost);
    }
  }

  lemma {:induction false} DispatchAllKeepsCover(cfg: Config, w: World, events: seq<Event>, outcome: Id -> bool,
                                                 now: Time, lost: nat)
    requires Covered(w, lost) && Known(w, events)
    ensures Covered(DispatchAll(cfg, w, events, outcome, now), lost)
    decreases |events|
  {
    if events != [] {
      var front := Front(events);
      assert forall e | e in front :: e in events;
      DispatchAllKeepsCover(cfg, w, front, outcome, now, lost);
      DispatchKeepsCover(cfg, DispatchAll(cfg, w, front, outcome, now), Last(events), outcome, now, lost);
    }
  }

  /** The batches that died between a handler and its mark. */
  function HandlerCrashes(actions: seq<Action>): nat {
    if actions == [] then 0
    else HandlerCrashes(actions[1..]) + if actions[0].Dispatching? && actions[0].round.stop.AfterHandler? then 1 else 0
  }

  lemma ActKeepsCover(cfg: Config, w: World, a: Action, lost: nat)
    requires Covered(w, lost) && CanAct(w, a)
    ensures Covered(Act(cfg, w, a), lost + if a.Dispatching? && a.round.stop.AfterHandler? then 1 else 0)
  {
    match a
    case Publish(id, _, _, _) =>
      var w' := Act(cfg, w, a);
      forall x | x in w'.rows ensures RowCovered(w'.rows[x], w'.log, x, lost) {
        if x != id { assert RowCovered(w.rows[x], w.log, x, lost); }
      }
    case Dispatching(round) =>
      RoundKeepsCover(cfg, w, round, lost);
  }

  lemma RoundKeepsCover(cfg: Config, w: World, round: Round, lost: nat)
    requires Covered(w, lost) && IsRound(w, round)
    ensures Ready(w, Order(round.polled))
    ensures Covered(Step(cfg, w, round), lost + if round.stop.AfterHandler? then 1 else 0)
  {
    OrderIsReady(w, round);
    var order := Order(round.polled);
    DispatchAllKeepsCover(cfg, w, order, round.outcome, round.now, lost);
    if !round.stop.AtEnd? && round.stop.event < |order| {
      var k := round.stop.event;
      PrefixIsReady(w, order, k);
      DispatchAllKeepsCover(cfg, w, order[..k], round.outcome, round.now, lost);
      assert order[k] in order;
      DispatchKeepsCover(cfg, DispatchAll(cfg, w, order[..k], round.outcome, round.now), order[k], round.outcome,
                         round.now, lost);
    }
    MoreMayBeLost(Step(cfg, w, round), lost);
  }

  lemma MoreMayBeLost(w: World, lost: nat)
    ensures Covered(w, lost) ==> Covered(w, lost + 1)
  {
    if Covered(w, lost) {
      forall id | id in w.rows ensures RowCovered(w.rows[id], w.log, id, lost + 1) {
        assert RowCovered(w.rows[id], w.log, id, lost);
      }
    }
  }

  lemma {:induction false} RunKeepsCover(cfg: Config, w: World, actions: seq<Action>, lost: nat)
    requires Covered(w, lost) && CanRun(cfg, w, actions)
    ensures Covered(RunAll(cfg, w, actions), lost + HandlerCrashes(actions))
    decreases |actions|
  {
    hide Covered, CanAct, Act;
    if actions != [] {
      var more := if actions[0].Dispatching? && actions[0].round.stop.AfterHandler? then 1 else 0;
      ActKeepsCover(cfg, w, actions[0], lost);
      RunKeepsCover(cfg, Act(cfg, w, actions[0]), actions[1..], lost + more);
    }
  }

  /**
   From an empty outbox: the books of every run.  No event is tried more often than its budget and the crashes
   between a handler and its mark allow; without crashes the counts are exact.
   */
  lemma EveryRunIsAccounted(cfg: Config, actions: seq<Action>, id: Id)
    requires CanRun(cfg, World(map[], []), actions)
    requires id in RunAll(cfg, World(map[], []), actions).rows
    ensures var w := RunAll(cfg, World(map[], []), actions); var r := w.rows[id];
            && (r.processedAt.Some? ==> Tries(w.log, id, true) >= 1)
            && (r.failedAt.Some? ==> r.processedAt.None? && Tries(w.log, id, false) >= Budget(cfg))
            && Tries(w.log, id, true) + Tries(w.log, id, false) <= Budget(cfg) + HandlerCrashes(actions)
            && (NoCrash(actions) ==>
                  && Tries(w.log, id, true) + Tries(w.log, id, false) <= Budget(cfg)
                  && (r.processedAt.Some? <==> Tries(w.log, id, true) == 1)
                  && (r.failedAt.Some? <==> Tries(w.log, id, false) == Budget(cfg)))
  {
    RunKeepsBooks(cfg, World(map[], []), actions);
    RunKeepsCover(cfg, World(map[], []), actions, 0);
    var w := RunAll(cfg, World(map[], []), actions);
    assert RowAccounted(cfg, w.rows[id], w.log, id);
    assert RowCovered(w.rows[id], w.log, id, HandlerCrashes(actions));
    if NoCrash(actions) {
      assert RowExact(w.rows[id], w.log, id);
    }
  }

  // ----- repeated batches come to an end -----

  /** The tries still open: one token for each try a live event has left. */
  ghost function Tokens(cfg: Config, rows: map<Id, Row>): set<(Id, int)> {
    set id, k: int | id in rows && rows[id].retryCount <= k < Budget(cfg) && Live(rows[id]) :: (id, k)
  }

  lemma DispatchSpendsToken(cfg: Config, w: World, e: Event, outcome: Id -> bool, now: Time)
    requires Accounted(cfg, w) && e.id in w.rows && Live(w.rows[e.id])
    ensures Tokens(cfg, Dispatch(cfg, w, e, outcome, now).rows) < Tokens(cfg, w.rows)
  {
    var w' := Dispatch(cfg, w, e, outcome, now);
    assert RowAccounted(cfg, w.rows[e.id], w.log, e.id);
    var token := (e.id, w.rows[e.id].retryCount);
    assert token in Tokens(cfg, w.rows) && token !in Tokens(cfg, w'.rows);
    forall t | t in Tokens(cfg, w'.rows) ensures t in Tokens(cfg, w.rows) {
      assert t.0 != e.id ==> w'.rows[t.0] == w.rows[t.0];
    }
  }

  lemma {:induction false} DispatchSeveralSpends(cfg: Config, w: World, events: seq<Event>, outcome: Id -> bool,
                                                 now: Time)
    requires Accounted(cfg, w) && Ready(w, events)
    ensures Tokens(cfg, DispatchAll(cfg, w, events, outcome, now).rows) <= Tokens(cfg, w.rows)
    ensures events != [] ==> Tokens(cfg, DispatchAll(cfg, w, events, outcome, now).rows) < Tokens(cfg, w.rows)
    decreases |events|
  {
    if events != [] {
      var front, e := events[..|events| - 1], events[|events| - 1];
      assert events == front + [e];
      DispatchSeveralSpends(cfg, w, front, outcome, now);
      DispatchSeveral(cfg, w, front, outcome, now);
      DispatchSpendsToken(cfg, DispatchAll(cfg, w, front, outcome, now), e, outcome, now);
    }
  }

  lemma {:induction false} SubsetIsSmaller<T>(a: set<T>, b: set<T>)
    requires a <= b
    ensures |a| <= |b|
    ensures a < b ==> |a| < |b|
  {
    assert b == a + (b - a) && |b| == |a| + |b - a|;
  }

  /** The batches of a run that found something. */
  function BusyBatches(actions: seq<Action>): nat {
    if actions == [] then 0
    else BusyBatches(actions[1..]) + if actions[0].Dispatching? && actions[0].round.polled != [] then 1 else 0
  }

  function Publications(actions: seq<Action>): nat {
    if actions == [] then 0 else Publications(actions[1..]) + if actions[0].Publish? then 1 else 0
  }

  /** The batches of a run that stop early. */
  function Stops(actions: seq<Action>): nat {
    if actions == [] then 0
    else Stops(actions[1..]) + if actions[0].Dispatching? && !actions[0].round.stop.AtEnd? then 1 else 0
  }

  lemma BatchSpends(cfg: Config, w: World, round: Round)
    requires Accounted(cfg, w) && IsRound(w, round)
    ensures Ready(w, Order(round.polled))
    ensures |Tokens(cfg, Step(cfg, w, round).rows)| + (if round.polled != [] && round.stop.AtEnd? then 1 else 0)
            <= |Tokens(cfg, w.rows)|
  {
    OrderIsReady(w, round);
    var order := Order(round.polled);
    assert round.polled != [] ==> order != [] by {
      if round.polled != [] { assert round.polled[0] in multiset(order); }
    }
    DispatchSeveralSpends(cfg, w, order, round.outcome, round.now);
    if !round.stop.AtEnd? && round.stop.event < |order| {
      PrefixIsReady(w, order, round.stop.event);
      DispatchSeveralSpends(cfg, w, order[..round.stop.event], round.outcome, round.now);
    }
    SubsetIsSmaller(Tokens(cfg, Step(cfg, w, round).rows), Tokens(cfg, w.rows));
  }

  /** A publication brings a budget of tries, a busy batch that runs to its end uses up at least one. */
  lemma ActSpends(cfg: Config, w: World, a: Action)
    requires Accounted(cfg, w) && CanAct(w, a)
    ensures |Tokens(cfg, Act(cfg, w, a).rows)|
            + (if a.Dispatching? && a.round.polled != [] && a.round.stop.AtEnd? then 1 else 0)
            <= |Tokens(cfg, w.rows)| + if a.Publish? then Budget(cfg) else 0
  {
    if a.Publish? {
      TokensOfOneMore(cfg, Act(cfg, w, a).rows, a.id);
      assert Act(cfg, w, a).rows - {a.id} == w.rows;
    } else {
      BatchSpends(cfg, w, a.round);
    }
  }

  lemma {:induction false} BusyBatchesSpend(cfg: Config, w: World, actions: seq<Action>)
    requires Accounted(cfg, w) && CanRun(cfg, w, actions)
    ensures BusyBatches(actions) <= |Tokens(cfg, w.rows)| + Publications(actions) * Budget(cfg) + Stops(actions)
    decreases |actions|
  {
    hide Accounted, Tokens, CanAct, Act, Budget;
    if actions != [] {
      ActKeepsBooks(cfg, w, actions[0]);
      BusyBatchesSpend(cfg, Act(cfg, w, actions[0]), actions[1..]);
      ActSpends(cfg, w, actions[0]);
      OneMoreTimes(Publications(actions), Budget(cfg));
    }
  }

  lemma TokensOfOneMore(cfg: Config, rows: map<Id, Row>, id: Id)
    requires id in rows ==> rows[id].retryCount >= 0
    ensures |Tokens(cfg, rows)| <= |Tokens(cfg, rows - {id})| + Budget(cfg)
  {
    var own := set k: int | 0 <= k < Budget(cfg) :: (id, k);
    OwnTokens(id, Budget(cfg));
    forall t | t in Tokens(cfg, rows) ensures t in Tokens(cfg, rows - {id}) + own {
      if t.0 == id { assert t == (id, t.1); }
    }
    SubsetIsSmaller(Tokens(cfg, rows), Tokens(cfg, rows - {id}) + own);
  }

  ghost function LiveIds(rows: map<Id, Row>): set<Id> {
    set id | id in rows && Live(rows[id])
  }

  lemma {:induction false} TokensAreFew(cfg: Config, rows: map<Id, Row>)
    requires forall id | id in rows :: rows[id].retryCount >= 0
    ensures |Tokens(cfg, rows)| <= |LiveIds(rows)| * Budget(cfg)
    decreases |LiveIds(rows)|
  {
    if LiveIds(rows) == {} {
      assert forall t | t in Tokens(cfg, rows) :: t.0 in LiveIds(rows);
      assert Tokens(cfg, rows) == {};
    } else {
      var id :| id in LiveIds(rows);
      assert LiveIds(rows - {id}) == LiveIds(rows) - {id};
      TokensAreFew(cfg, rows - {id});
      TokensOfOneMore(cfg, rows, id);
      OneMoreTimes(|LiveIds(rows)|, Budget(cfg));
    }
  }

  lemma OneMoreTimes(n: int, b: int)
    ensures n * b == (n - 1) * b + b
  {
  }

  lemma {:induction false} OwnTokens(id: Id, n: nat)
    ensures |set k: int | 0 <= k < n :: (id, k)| == n
  {
    if n > 0 {
      OwnTokens(id, n - 1);
      assert (set k: int | 0 <= k < n :: (id, k)) == (set k: int | 0 <= k < n - 1 :: (id, k)) + {(id, n - 1)};
    } else {
      assert (set k: int | 0 <= k < n :: (id, k)) == {};
    }
  }

  /**
   In every run, whatever is published in between, the batches that find anything number at most max(1, max_retries)
   for each event that was live at the start or is published, and one more for each batch that stops early.
   */
  lemma BatchesComeToAnEnd(cfg: Config, w: World, actions: seq<Action>)
    requires Accounted(cfg, w) && CanRun(cfg, w, actions)
    ensures BusyBatches(actions) <= (|LiveIds(w.rows)| + Publications(actions)) * Budget(cfg) + Stops(actions)
  {
    forall id | id in w.rows ensures w.rows[id].retryCount >= 0 { assert RowAccounted(cfg, w.rows[id], w.log, id); }
    TokensAreFew(cfg, w.rows);
    BusyBatchesSpend(cfg, w, actions);
    TimesDistributes(|LiveIds(w.rows)|, Publications(actions), Budget(cfg));
  }

  lemma TimesDistributes(m: int, n: int, b: int)
    ensures (m + n) * b == m * b + n * b
  {
  }

  lemma EmptyPollMeansDone(w: World, round: Round)
    requires IsRound(w, round) && round.limit >= 1
    ensures round.polled == [] <==> forall id | id in w.rows :: w.rows[id].processedAt.Some? || w.rows[id].failedAt.Some?
  {
    if round.polled != [] {
      assert round.polled[0] in round.polled;
    }
  }
}
