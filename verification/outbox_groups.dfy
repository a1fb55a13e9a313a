/** Grouping a polled batch by aggregate, and the order in which the groups are dispatched. */
module OutboxGroups {
  import opened Common
  import opened OutboxTable

  datatype Group = Group(aggregateId: string, events: seq<Event>)

  function Select(events: seq<Event>, aggregateId: string): seq<Event> {
    if events == [] then []
    else
      var e := events[|events| - 1];
      Select(events[..|events| - 1], aggregateId) + if e.aggregateId == aggregateId then [e] else []
  }

  predicate DistinctGroups(groups: seq<Group>) {
    forall i, j | 0 <= i < j < |groups| :: groups[i].aggregateId != groups[j].aggregateId
  }

  /** The groups split the batch by aggregate and keep its order inside each of them. */
  predicate IsPartition(groups: seq<Group>, events: seq<Event>) {
    && DistinctGroups(groups)
    && (forall g | g in groups :: g.events == Select(events, g.aggregateId) && g.events != [])
    && (forall e | e in events :: exists g | g in groups :: g.aggregateId == e.aggregateId)
  }

  function Flatten(groups: seq<Group>): seq<Event> {
    if groups == [] then [] else Flatten(groups[..|groups| - 1]) + groups[|groups| - 1].events
  }

  lemma {:induction false} SelectMembers(events: seq<Event>, aggregateId: string)
    ensures forall e :: e in Select(events, aggregateId) <==> e in events && e.aggregateId == aggregateId
  {
    if events != [] {
      SelectMembers(events[..|events| - 1], aggregateId);
      assert events == events[..|events| - 1] + [events[|events| - 1]];
    }
  }

  lemma {:induction false} SelectSorted(events: seq<Event>, aggregateId: string)
    requires SortedByTime(events)
    ensures SortedByTime(Select(events, aggregateId))
  {
    if events != [] {
      var front := events[..|events| - 1];
      SelectSorted(front, aggregateId);
      SelectMembers(front, aggregateId);
      assert forall e | e in front :: e.createdAt <= events[|events| - 1].createdAt;
      assert forall i | 0 <= i < |Select(front, aggregateId)| :: Select(front, aggregateId)[i] in front;
    }
  }

  // ----- the groups are a permutation of the batch -----

  /** Keeps the events of the given aggregates. */
  function Keep(events: seq<Event>, ids: set<string>): seq<Event> {
    if events == [] then []
    else
      var e := events[|events| - 1];
      Keep(events[..|events| - 1], ids) + if e.aggregateId in ids then [e] else []
  }

  lemma {:induction false} KeepOneMore(events: seq<Event>, ids: set<string>, id: string)
    requires id !in ids
    ensures multiset(Keep(events, ids + {id})) == multiset(Keep(events, ids)) + multiset(Select(events, id))
  {
    if events != [] {
      KeepOneMore(events[..|events| - 1], ids, id);
    }
  }

  lemma {:induction false} KeepNone(events: seq<Event>)
    ensures Keep(events, {}) == []
  {
    if events != [] { KeepNone(events[..|events| - 1]); }
  }

  lemma {:induction false} KeepAll(events: seq<Event>, ids: set<string>)
    requires forall e | e in events :: e.aggregateId in ids
    ensures Keep(events, ids) == events
  {
    if events != [] {
      assert events == events[..|events| - 1] + [events[|events| - 1]];
      KeepAll(events[..|events| - 1], ids);
    }
  }

  lemma {:induction false} FlattenKeeps(groups: seq<Group>, events: seq<Event>, ids: set<string>)
    requires DistinctGroups(groups) && forall g | g in groups :: g.events == Select(events, g.aggregateId)
    requires ids == set g | g in groups :: g.aggregateId
    ensures multiset(Flatten(groups)) == multiset(Keep(events, ids))
    decreases |groups|
  {
    if groups == [] {
      assert ids == {};
      KeepNone(events);
    } else {
      var front, last := groups[..|groups| - 1], groups[|groups| - 1];
      assert groups == front + [last];
      var ids' := set g | g in front :: g.aggregateId;
      assert ids == ids' + {last.aggregateId};
      assert last.aggregateId !in ids' by {
        forall i | 0 <= i < |front| ensures front[i].aggregateId != last.aggregateId { assert front[i] == groups[i]; }
      }
      FlattenKeeps(front, events, ids');
      KeepOneMore(events, ids', last.aggregateId);
    }
  }

  lemma PartitionIsPermutation(groups: seq<Group>, events: seq<Event>)
    requires IsPartition(groups, events)
    ensures multiset(Flatten(groups)) == multiset(events)
  {
    var ids := set g | g in groups :: g.aggregateId;
    FlattenKeeps(groups, events, ids);
    KeepAll(events, ids);
  }

  /** Handler calls of one aggregate follow each other in the order of the batch, hence of creation. */
  lemma {:induction false} FlattenSelects(groups: seq<Group>, events: seq<Event>, aggregateId: string)
    requires DistinctGroups(groups) && forall g | g in groups :: g.events == Select(events, g.aggregateId)
    ensures Select(Flatten(groups), aggregateId)
         == if exists g | g in groups :: g.aggregateId == aggregateId then Select(events, aggregateId) else []
    decreases |groups|
  {
    if groups != [] {
      var front, last := groups[..|groups| - 1], groups[|groups| - 1];
      assert groups == front + [last];
      FlattenSelects(front, events, aggregateId);
      SelectAppend(Flatten(front), last.events, aggregateId);
      SelectTwice(events, last.aggregateId, aggregateId);
      if exists g | g in front :: g.aggregateId == aggregateId {
        var i :| 0 <= i < |front| && front[i].aggregateId == aggregateId;
        assert groups[i].aggregateId != groups[|groups| - 1].aggregateId;
      }
    }
  }

  lemma {:induction false} SelectAppend(a: seq<Event>, b: seq<Event>, aggregateId: string)
    ensures Select(a + b, aggregateId) == Select(a, aggregateId) + Select(b, aggregateId)
    decreases |b|
  {
    if b == [] {
      assert a + b == a;
    } else {
      assert (a + b)[..|a + b| - 1] == a + b[..|b| - 1];
      SelectAppend(a, b[..|b| - 1], aggregateId);
    }
  }

  lemma SelectOne(e: Event, aggregateId: string)
    ensures Select([e], aggregateId) == if e.aggregateId == aggregateId then [e] else []
  {
    assert [e][..0] == [];
  }

  lemma {:induction false} SelectNone(events: seq<Event>, aggregateId: string)
    requires forall e | e in events :: e.aggregateId != aggregateId
    ensures Select(events, aggregateId) == []
  {
    if events != [] { SelectNone(events[..|events| - 1], aggregateId); }
  }

  lemma {:induction false} SelectTwice(events: seq<Event>, a: string, b: string)
    ensures Select(Select(events, a), b) == if a == b then Select(events, a) else []
  {
    if events != [] {
      var front, last := events[..|events| - 1], events[|events| - 1];
      SelectTwice(front, a, b);
      if last.aggregateId == a {
        SelectAppend(Select(front, a), [last], b);
        SelectOne(last, b);
      } else {
        assert Select(events, a) == Select(front, a);
      }
    }
  }

  lemma PartitionOrder(groups: seq<Group>, events: seq<Event>, aggregateId: string)
    requires IsPartition(groups, events) && SortedByTime(events)
    ensures Select(Flatten(groups), aggregateId) == Select(events, aggregateId)
    ensures SortedByTime(Select(Flatten(groups), aggregateId))
  {
    FlattenSelects(groups, events, aggregateId);
    SelectSorted(events, aggregateId);
    if !exists g | g in groups :: g.aggregateId == aggregateId {
      SelectNone(events, aggregateId);
    }
  }

  lemma {:induction false} SelectSortedPairs(events: seq<Event>, i: nat, j: nat)
    requires i < j < |events| && events[i].aggregateId == events[j].aggregateId
    requires SortedByTime(Select(events, events[j].aggregateId))
    ensures events[i].createdAt <= events[j].createdAt
    decreases |events|
  {
    var front, last := events[..|events| - 1], events[|events| - 1];
    var selected := Select(front, events[j].aggregateId);
    SelectMembers(front, events[j].aggregateId);
    assert front[i] in front;
    if j == |events| - 1 {
      assert Select(events, last.aggregateId) == selected + [last];
      var k :| 0 <= k < |selected| && selected[k] == events[i];
      assert (selected + [last])[k] == events[i] && (selected + [last])[|selected|] == last;
    } else {
      assert forall k | 0 <= k < |selected| :: selected[k] == Select(events, events[j].aggregateId)[k];
      SelectSortedPairs(front, i, j);
    }
  }

  // ----- the grouping loop -----

  predicate HasGroup(groups: seq<Group>, aggregateId: string) {
    exists i :: 0 <= i < |groups| && groups[i].aggregateId == aggregateId
  }

  /** Puts the event into the first group of its aggregate, or opens one behind all others. */
  function AddEvent(groups: seq<Group>, e: Event): seq<Group> {
    if groups == [] then [Group(e.aggregateId, [e])]
    else if groups[0].aggregateId == e.aggregateId then
      [groups[0].(events := groups[0].events + [e])] + groups[1..]
    else [groups[0]] + AddEvent(groups[1..], e)
  }

  function Grouping(events: seq<Event>): seq<Group> {
    if events == [] then [] else AddEvent(Grouping(events[..|events| - 1]), events[|events| - 1])
  }

  /** The index the search stops at decides where the event goes. */
  lemma {:induction false} AddEventFound(groups: seq<Group>, e: Event, i: nat)
    requires i <= |groups| && forall j | 0 <= j < i :: groups[j].aggregateId != e.aggregateId
    requires i < |groups| ==> groups[i].aggregateId == e.aggregateId
    ensures AddEvent(groups, e) == if i < |groups| then groups[i := groups[i].(events := groups[i].events + [e])]
                                   else groups + [Group(e.aggregateId, [e])]
    decreases |groups|
  {
    if i > 0 {
      AddEventFound(groups[1..], e, i - 1);
      assert groups == [groups[0]] + groups[1..];
      if i < |groups| {
        var grown := groups[i].(events := groups[i].events + [e]);
        assert groups[i := grown] == [groups[0]] + groups[1..][i - 1 := grown];
      }
    }
  }

  /** Where event number `k` of group number `g` stands in the dispatch order. */
  lemma {:induction false} FlattenAt(groups: seq<Group>, g: nat, k: nat)
    requires g < |groups| && k <= |groups[g].events|
    ensures |Flatten(groups[..g])| + |groups[g].events| == |Flatten(groups[..g + 1])| <= |Flatten(groups)|
    ensures k < |groups[g].events| ==> Flatten(groups)[|Flatten(groups[..g])| + k] == groups[g].events[k]
    decreases |groups|
  {
    assert groups[..g + 1][..g] == groups[..g];
    if g + 1 == |groups| {
      assert groups[..g + 1] == groups;
    } else {
      var front := groups[..|groups| - 1];
      FlattenAt(front, g, k);
      assert front[..g] == groups[..g] && front[..g + 1] == groups[..g + 1];
    }
  }

  lemma {:induction false} AddEventAt(groups: seq<Group>, e: Event)
    requires DistinctGroups(groups)
    ensures var r := AddEvent(groups, e);
            if HasGroup(groups, e.aggregateId)
            then |r| == |groups| && forall i | 0 <= i < |groups| ::
                   r[i] == if groups[i].aggregateId == e.aggregateId
                           then groups[i].(events := groups[i].events + [e]) else groups[i]
            else r == groups + [Group(e.aggregateId, [e])]
    decreases |groups|
  {
    if groups == [] {
    } else if groups[0].aggregateId == e.aggregateId {
    } else {
      AddEventAt(groups[1..], e);
      if HasGroup(groups, e.aggregateId) {
        var i :| 0 <= i < |groups| && groups[i].aggregateId == e.aggregateId;
        assert groups[1..][i - 1].aggregateId == e.aggregateId;
      }
      assert groups == [groups[0]] + groups[1..];
    }
  }

  lemma SelectAppends(events: seq<Event>, e: Event, aggregateId: string)
    ensures Select(events + [e], aggregateId) == Select(events, aggregateId) + if e.aggregateId == aggregateId then [e] else []
  {
    assert (events + [e])[..|events|] == events;
  }

  lemma AddEventKeepsGroups(groups: seq<Group>, events: seq<Event>, e: Event)
    requires IsPartition(groups, events)
    ensures var r := AddEvent(groups, e);
            DistinctGroups(r) && forall g | g in r :: g.events == Select(events + [e], g.aggregateId) && g.events != []
  {
    var r := AddEvent(groups, e);
    AddEventAt(groups, e);
    hide AddEvent, Select;
    forall g | g in r ensures g.events == Select(events + [e], g.aggregateId) && g.events != [] {
      SelectAppends(events, e, g.aggregateId);
      if !HasGroup(groups, e.aggregateId) { SelectNone(events, e.aggregateId); }
      var i :| 0 <= i < |r| && r[i] == g;
      assert i < |groups| ==> groups[i] in groups;
    }
  }

  lemma AddEventKeepsPartition(groups: seq<Group>, events: seq<Event>, e: Event)
    requires IsPartition(groups, events)
    ensures IsPartition(AddEvent(groups, e), events + [e])
  {
    AddEventKeepsGroups(groups, events, e);
    AddEventAt(groups, e);
    var r := AddEvent(groups, e);
    forall x | x in events + [e] ensures exists g | g in r :: g.aggregateId == x.aggregateId {
      if x in events {
        var g :| g in groups && g.aggregateId == x.aggregateId;
        var i :| 0 <= i < |groups| && groups[i] == g;
        assert r[i] in r && r[i].aggregateId == x.aggregateId;
      } else if HasGroup(groups, e.aggregateId) {
        var i :| 0 <= i < |groups| && groups[i].aggregateId == e.aggregateId;
        assert r[i] in r && r[i].aggregateId == x.aggregateId;
      } else {
        assert r[|r| - 1] in r;
      }
    }
  }

  /** Aggregates in the order in which the batch first mentions them. */
  function FirstSeen(events: seq<Event>): seq<string> {
    if events == [] then []
    else
      var seen, id := FirstSeen(events[..|events| - 1]), events[|events| - 1].aggregateId;
      if id in seen then seen else seen + [id]
  }

  function Aggregates(groups: seq<Group>): seq<string> {
    seq(|groups|, i requires 0 <= i < |groups| => groups[i].aggregateId)
  }

  lemma {:induction false} GroupingIsPartition(events: seq<Event>)
    ensures IsPartition(Grouping(events), events)
  {
    if events != [] {
      var front, e := events[..|events| - 1], events[|events| - 1];
      GroupingIsPartition(front);
      AddEventKeepsPartition(Grouping(front), front, e);
      assert front + [e] == events;
    }
  }

  lemma {:induction false} AggregatesAfterAdd(groups: seq<Group>, e: Event)
    ensures Aggregates(AddEvent(groups, e))
         == if e.aggregateId in Aggregates(groups) then Aggregates(groups) else Aggregates(groups) + [e.aggregateId]
  {
    if groups != [] {
      AggregatesAfterAdd(groups[1..], e);
      assert Aggregates(groups) == [groups[0].aggregateId] + Aggregates(groups[1..]);
      var r := AddEvent(groups, e);
      assert Aggregates(r) == [r[0].aggregateId] + Aggregates(r[1..]);
    }
  }

  lemma {:induction false} GroupsAppearInBatchOrder(events: seq<Event>)
    ensures Aggregates(Grouping(events)) == FirstSeen(events)
  {
    if events != [] {
      GroupsAppearInBatchOrder(events[..|events| - 1]);
      AggregatesAfterAdd(Grouping(events[..|events| - 1]), events[|events| - 1]);
    }
  }

  /** The groups hold the events of the batch, each in the one group of its aggregate. */
  lemma GroupsHoldTheirEvents(events: seq<Event>)
    ensures forall i, j | 0 <= i < j < |Grouping(events)| :: Grouping(events)[i].aggregateId != Grouping(events)[j].aggregateId
    ensures forall g | g in Grouping(events) :: g.events != [] && forall e | e in g.events :: e in events && e.aggregateId == g.aggregateId
    ensures multiset(Flatten(Grouping(events))) == multiset(events)
  {
    GroupingIsPartition(events);
    PartitionIsPermutation(Grouping(events), events);
    forall g | g in Grouping(events) ensures forall e | e in g.events :: e in events && e.aggregateId == g.aggregateId {
      SelectMembers(events, g.aggregateId);
    }
  }

  // ----- sort_by_key -----

  /** The stable sort by created_at: an event goes behind those that are not younger. */
  function Place(sorted: seq<Event>, e: Event): seq<Event> {
    if sorted == [] || sorted[|sorted| - 1].createdAt <= e.createdAt then sorted + [e]
    else Place(sorted[..|sorted| - 1], e) + [sorted[|sorted| - 1]]
  }

  function StableSort(events: seq<Event>): seq<Event> {
    if events == [] then [] else Place(StableSort(events[..|events| - 1]), events[|events| - 1])
  }

  /** The poll already ordered the events, so the sort moves none of them. */
  lemma {:induction false} SortKeepsSorted(events: seq<Event>)
    requires SortedByTime(events)
    ensures StableSort(events) == events
  {
    if events != [] {
      assert events == events[..|events| - 1] + [events[|events| - 1]];
      SortKeepsSorted(events[..|events| - 1]);
    }
  }
}
