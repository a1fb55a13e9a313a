/** The legs of activities, their numbers, and the statements that move a leg. */
module LegTable {
  import opened Common

  datatype Leg = Leg(activity: Id, number: int, title: Option<string>, date: Time)

  datatype LegError = LegNotFound | InvalidLegNumber | InvalidLegTitle | MaxLegsExceeded | UniqueViolation

  const MAX_LEGS := 30

  type Table = map<Id, Leg>

  /** UNIQUE (activity_id, leg_number). */
  predicate UniqueNumbers(legs: Table) {
    forall a, b | a in legs && b in legs && legs[a].activity == legs[b].activity && legs[a].number == legs[b].number :: a == b
  }

  function LegsOf(legs: Table, activity: Id): set<Id> {
    set id | id in legs && legs[id].activity == activity
  }

  predicate Distinct(s: seq<Id>) {
    forall i, j | 0 <= i < j < |s| :: s[i] != s[j]
  }

  /** The activity's legs in order, numbered 1, 2, 3 and so on. */
  ghost predicate Lists(legs: Table, activity: Id, s: seq<Id>) {
    && Distinct(s) && (forall id :: id in s <==> id in LegsOf(legs, activity))
    && (forall i | 0 <= i < |s| :: s[i] in legs && legs[s[i]].number == i + 1)
  }

  // ----- moving an element of a list -----

  function MoveTo(s: seq<Id>, i: nat, j: nat): (r: seq<Id>)
    requires i < |s| && j < |s|
    ensures |r| == |s|
  {
    var rest := s[..i] + s[i + 1..];
    rest[..j] + [s[i]] + rest[j..]
  }

  /** Where an element of the list goes when the one at i moves to j. */
  function Shifted(k: int, i: int, j: int): int {
    if k == i then j
    else if j <= k < i then k + 1
    else if i < k <= j then k - 1
    else k
  }

  lemma MoveToAt(s: seq<Id>, i: nat, j: nat, k: nat)
    requires i < |s| && j < |s| && k < |s|
    ensures 0 <= Shifted(k, i, j) < |s| && MoveTo(s, i, j)[Shifted(k, i, j)] == s[k]
    ensures Shifted(Shifted(k, i, j), j, i) == k
  {
  }

  lemma MoveBackRestores(s: seq<Id>, i: nat, j: nat)
    requires i < |s| && j < |s|
    ensures MoveTo(MoveTo(s, i, j), j, i) == s
  {
    var t := MoveTo(s, i, j);
    forall k | 0 <= k < |s| ensures MoveTo(t, j, i)[k] == s[k] {
      MoveToAt(s, i, j, k);
      MoveToAt(t, j, i, Shifted(k, i, j));
    }
  }

  // ----- what the two UPDATE statements of a reorder write -----

  /** Other legs of the activity whose number the shift changes. */
  predicate InShift(leg: Leg, activity: Id, oldPos: int, newPos: int) {
    leg.activity == activity && (if newPos < oldPos then newPos <= leg.number < oldPos else oldPos < leg.number <= newPos)
  }

  function Step(oldPos: int, newPos: int): int {
    if newPos < oldPos then 1 else -1
  }

  function Moved(legs: Table, activity: Id, legId: Id, newPos: int): Table
    requires legId in legs
  {
    var oldPos := legs[legId].number;
    map id | id in legs ::
      if id == legId then legs[id].(number := newPos)
      else if oldPos != newPos && InShift(legs[id], activity, oldPos, newPos)
        then legs[id].(number := legs[id].number + Step(oldPos, newPos))
      else legs[id]
  }

  lemma ShiftedIsInjective(i: int, j: int, k: int, m: int)
    ensures k != m ==> Shifted(k, i, j) != Shifted(m, i, j)
  {
  }

  lemma MoveToKeepsMembers(s: seq<Id>, i: nat, j: nat)
    requires i < |s| && j < |s| && Distinct(s)
    ensures Distinct(MoveTo(s, i, j)) && forall id :: id in MoveTo(s, i, j) <==> id in s
  {
    var r := MoveTo(s, i, j);
    hide MoveTo;
    forall k | 0 <= k < |s|
      ensures s[k] in r
      ensures 0 <= Shifted(k, j, i) < |s| && r[k] == s[Shifted(k, j, i)]
    {
      MoveToAt(s, i, j, k);
      MoveToAt(s, j, i, k);
      MoveToAt(s, i, j, Shifted(k, j, i));
    }
    hide Shifted;
    forall k, m | 0 <= k < m < |r| ensures r[k] != r[m] {
      ShiftedIsInjective(j, i, k, m);
      assert r[k] == s[Shifted(k, j, i)] && r[m] == s[Shifted(m, j, i)];
    }
  }

  lemma NumberIsPlace(legs: Table, activity: Id, s: seq<Id>, id: Id)
    requires Lists(legs, activity, s) && id in LegsOf(legs, activity)
    ensures 1 <= legs[id].number <= |s| && s[legs[id].number - 1] == id
  {
    assert id in s;
    var k :| 0 <= k < |s| && s[k] == id;
  }

  lemma MovedNumber(legs: Table, activity: Id, s: seq<Id>, legId: Id, newPos: int, k: nat)
    requires Lists(legs, activity, s) && legId in LegsOf(legs, activity) && 1 <= newPos <= |s| && k < |s|
    ensures s[k] in legs
    ensures Moved(legs, activity, legId, newPos)[s[k]].number == Shifted(k, legs[legId].number - 1, newPos - 1) + 1
  {
    NumberIsPlace(legs, activity, s, legId);
    assert s[k] in s;
    assert s[k] in LegsOf(legs, activity);
  }

  /** The statements' effect is the list move, and nothing outside the activity changes. */
  lemma MovedIsListMove(legs: Table, activity: Id, s: seq<Id>, legId: Id, newPos: int)
    requires Lists(legs, activity, s) && legId in LegsOf(legs, activity) && 1 <= newPos <= |s|
    ensures 1 <= legs[legId].number <= |s|
    ensures Lists(Moved(legs, activity, legId, newPos), activity, MoveTo(s, legs[legId].number - 1, newPos - 1))
    ensures forall id | id in legs && legs[id].activity != activity :: Moved(legs, activity, legId, newPos)[id] == legs[id]
  {
    NumberIsPlace(legs, activity, s, legId);
    var i, j := legs[legId].number - 1, newPos - 1;
    var t, r := Moved(legs, activity, legId, newPos), MoveTo(s, i, j);
    MoveToKeepsMembers(s, i, j);
    assert LegsOf(t, activity) == LegsOf(legs, activity);
    forall m | 0 <= m < |s| ensures r[m] in t && t[r[m]].number == m + 1 {
      MoveToAt(s, j, i, m);
      var k := Shifted(m, j, i);
      MoveToAt(s, i, j, k);
      MovedNumber(legs, activity, s, legId, newPos, k);
    }
  }

  /** Moving a leg and moving it back restores every number. */
  lemma MovedBackRestores(legs: Table, activity: Id, legId: Id, newPos: int)
    requires UniqueNumbers(legs) && legId in LegsOf(legs, activity)
    ensures Moved(Moved(legs, activity, legId, newPos), activity, legId, legs[legId].number) == legs
  {
  }

  // ----- the same statements under the table's unique constraint -----

  /** The number is held by another leg of the activity. */
  predicate Held(legs: Table, activity: Id, number: int, except: Id) {
    exists id :: id in legs && id != except && legs[id].activity == activity && legs[id].number == number
  }

  /** UPDATE ... SET leg_number: the constraint is not deferrable and is checked row by row. */
  function ShiftRows(legs: Table, order: seq<Id>, step: int): Result<Table, LegError>
    decreases |order|
  {
    if order == [] then Ok(legs)
    else if order[0] !in legs then ShiftRows(legs, order[1..], step)
    else
      var leg := legs[order[0]];
      if Held(legs, leg.activity, leg.number + step, order[0]) then Err(UniqueViolation)
      else ShiftRows(legs[order[0] := leg.(number := leg.number + step)], order[1..], step)
  }

  /** The order in which the shift visits the rows it matches is up to the database. */
  ghost predicate IsVisitOrder(legs: Table, activity: Id, legId: Id, newPos: int, order: seq<Id>)
    requires legId in legs
  {
    Distinct(order) && forall id :: id in order <==>
      id in legs && id != legId && legs[legId].number != newPos && InShift(legs[id], activity, legs[legId].number, newPos)
  }

  function Reorder(legs: Table, legId: Id, newPos: int, order: seq<Id>): Result<Table, LegError>
  {
    if legId !in legs then Err(LegNotFound)
    else if legs[legId].number == newPos then Ok(legs)
    else
      var shifted := ShiftRows(legs, order, Step(legs[legId].number, newPos));
      if shifted.Err? then shifted
      else if legId !in shifted.value then shifted
      else if Held(shifted.value, shifted.value[legId].activity, newPos, legId) then Err(UniqueViolation)
      else Ok(shifted.value[legId := shifted.value[legId].(number := newPos)])
  }

  lemma {:induction false} ShiftHitsMovedLeg(legs: Table, order: seq<Id>, step: int, x: Id, legId: Id)
    requires Distinct(order) && x in order && x in legs && legId in legs && legId !in order
    requires legs[x].activity == legs[legId].activity && legs[x].number + step == legs[legId].number
    ensures ShiftRows(legs, order, step).Err?
    decreases |order|
  {
    if order[0] == x {
      assert Held(legs, legs[x].activity, legs[x].number + step, x);
    } else if order[0] in legs {
      var leg := legs[order[0]];
      var next := legs[order[0] := leg.(number := leg.number + step)];
      assert x in order[1..];
      ShiftHitsMovedLeg(next, order[1..], step, x, legId);
    } else {
      assert x in order[1..];
      ShiftHitsMovedLeg(legs, order[1..], step, x, legId);
    }
  }

  /** A neighbour on the side the leg moves to makes the shift fail, in whatever order it visits rows. */
  lemma NeighbourBlocksReorder(legs: Table, legId: Id, newPos: int, order: seq<Id>, x: Id)
    requires legId in legs && legs[legId].number != newPos
    requires x in legs && x != legId && legs[x].activity == legs[legId].activity
    requires legs[x].number == legs[legId].number - Step(legs[legId].number, newPos)
    requires IsVisitOrder(legs, legs[legId].activity, legId, newPos, order)
    ensures Reorder(legs, legId, newPos, order).Err?
  {
    ShiftHitsMovedLeg(legs, order, Step(legs[legId].number, newPos), x, legId);
  }

  /** No leg the shift changes has another leg on the number it is changed to. */
  predicate ShiftIsFree(legs: Table, legId: Id, newPos: int)
    requires legId in legs
  {
    var oldPos := legs[legId].number;
    forall x | x in legs && x != legId && oldPos != newPos && InShift(legs[x], legs[legId].activity, oldPos, newPos) ::
      !Held(legs, legs[legId].activity, legs[x].number + Step(oldPos, newPos), x)
  }

  function Bumped(leg: Leg, step: int): Leg {
    leg.(number := leg.number + step)
  }

  /** Every row is as at the start, or bumped by the shift. */
  predicate PartlyShifted(start: Table, legs: Table, step: int, activity: Id) {
    start.Keys == legs.Keys &&
    forall x | x in legs :: legs[x] == start[x] || (start[x].activity == activity && legs[x] == Bumped(start[x], step))
  }

  lemma StaysFree(start: Table, legs: Table, step: int, activity: Id, x: Id)
    requires UniqueNumbers(start) && PartlyShifted(start, legs, step, activity) && x in legs
    requires start[x].activity == activity && !Held(start, activity, start[x].number + step, x)
    ensures !Held(legs, activity, start[x].number + step, x)
  {
    forall y | y in legs && y != x && legs[y].activity == activity ensures legs[y].number != start[x].number + step {
      assert y in start && start[y].activity == activity;
    }
  }

  lemma {:induction false} FreeShiftSucceeds(start: Table, legs: Table, order: seq<Id>, step: int, activity: Id)
    requires UniqueNumbers(start) && Distinct(order) && PartlyShifted(start, legs, step, activity)
    requires forall x | x in order :: x in start && start[x].activity == activity && legs[x] == start[x]
    requires forall x | x in order :: !Held(start, activity, start[x].number + step, x)
    ensures ShiftRows(legs, order, step).Ok?
    decreases |order|
  {
    if order != [] {
      var x := order[0];
      assert x in order;
      StaysFree(start, legs, step, activity, x);
      assert forall y | y in order[1..] :: y in order && y != x;
      FreeShiftSucceeds(start, legs[x := Bumped(start[x], step)], order[1..], step, activity);
    }
  }

  lemma {:induction false} ShiftBumpsVisited(legs: Table, order: seq<Id>, step: int)
    requires Distinct(order) && ShiftRows(legs, order, step).Ok?
    ensures var r := ShiftRows(legs, order, step).value;
            r.Keys == legs.Keys && forall x | x in legs :: r[x] == if x in order then Bumped(legs[x], step) else legs[x]
    decreases |order|
  {
    if order != [] {
      var x := order[0];
      var next := if x in legs then legs[x := Bumped(legs[x], step)] else legs;
      assert x !in order[1..];
      ShiftBumpsVisited(next, order[1..], step);
      assert forall y :: y in order <==> y == x || y in order[1..] by { assert order == [x] + order[1..]; }
    }
  }

  /** A shift that went through has freed the new number; the call then does what it promises. */
  lemma ShiftedReorderMoves(legs: Table, legId: Id, newPos: int, order: seq<Id>)
    requires UniqueNumbers(legs) && legId in legs && legs[legId].number != newPos
    requires IsVisitOrder(legs, legs[legId].activity, legId, newPos, order)
    requires ShiftRows(legs, order, Step(legs[legId].number, newPos)).Ok?
    ensures Reorder(legs, legId, newPos, order) == Ok(Moved(legs, legs[legId].activity, legId, newPos))
    ensures UniqueNumbers(Moved(legs, legs[legId].activity, legId, newPos))
  {
    var activity, oldPos := legs[legId].activity, legs[legId].number;
    ShiftBumpsVisited(legs, order, Step(oldPos, newPos));
    var shifted := ShiftRows(legs, order, Step(oldPos, newPos)).value;
    assert !Held(shifted, activity, newPos, legId) by {
      forall id | id in shifted && id != legId && shifted[id].activity == activity ensures shifted[id].number != newPos {
        assert id in order <==> InShift(legs[id], activity, oldPos, newPos);
      }
    }
    assert shifted[legId := shifted[legId].(number := newPos)] == Moved(legs, activity, legId, newPos);
  }

  /** When the shift is free every visit order gives the moved table. */
  lemma FreeReorderMoves(legs: Table, legId: Id, newPos: int, order: seq<Id>)
    requires UniqueNumbers(legs) && legId in legs && ShiftIsFree(legs, legId, newPos)
    requires IsVisitOrder(legs, legs[legId].activity, legId, newPos, order)
    ensures Reorder(legs, legId, newPos, order) == Ok(Moved(legs, legs[legId].activity, legId, newPos))
  {
    var activity, oldPos := legs[legId].activity, legs[legId].number;
    if oldPos == newPos {
      assert Moved(legs, activity, legId, newPos) == legs;
    } else {
      forall x | x in order ensures !Held(legs, activity, legs[x].number + Step(oldPos, newPos), x) {
        assert InShift(legs[x], activity, oldPos, newPos);
      }
      FreeShiftSucceeds(legs, legs, order, Step(oldPos, newPos), activity);
      ShiftedReorderMoves(legs, legId, newPos, order);
    }
  }

  lemma ShiftIsWithin(leg: Leg, activity: Id, oldPos: int, newPos: int)
    ensures InShift(leg, activity, oldPos, newPos) ==> leg.activity == activity
  {
  }

  lemma ShiftStopsAtHeld(legs: Table, order: seq<Id>, step: int)
    requires order != [] && order[0] in legs && Held(legs, legs[order[0]].activity, legs[order[0]].number + step, order[0])
    ensures ShiftRows(legs, order, step).Err?
  {
  }

  /** And only then: a leg in the way lets some visit order fail. */
  lemma BusyShiftCanFail(legs: Table, legId: Id, newPos: int)
    requires legId in legs && !ShiftIsFree(legs, legId, newPos)
    ensures exists order :: IsVisitOrder(legs, legs[legId].activity, legId, newPos, order) && Reorder(legs, legId, newPos, order).Err?
  {
    hide InShift, ShiftRows, Held;
    var activity, oldPos := legs[legId].activity, legs[legId].number;
    var x :| x in legs && x != legId && oldPos != newPos && InShift(legs[x], activity, oldPos, newPos)
             && Held(legs, activity, legs[x].number + Step(oldPos, newPos), x);
    ShiftIsWithin(legs[x], activity, oldPos, newPos);
    var all := set id | id in legs && id != legId && InShift(legs[id], activity, oldPos, newPos);
    var rest := SomeOrder(all - {x});
    assert IsVisitOrder(legs, activity, legId, newPos, [x] + rest);
    ShiftStopsAtHeld(legs, [x] + rest, Step(oldPos, newPos));
    assert Reorder(legs, legId, newPos, [x] + rest).Err?;
  }

  lemma {:induction false} SomeOrder(ids: set<Id>) returns (order: seq<Id>)
    ensures Distinct(order) && forall id :: id in order <==> id in ids
    decreases ids
  {
    if ids == {} {
      order := [];
    } else {
      var id :| id in ids;
      var rest := SomeOrder(ids - {id});
      order := [id] + rest;
    }
  }

  /**
   On legs numbered 1..n no leg can be moved to another place of the list: the call succeeds
   only where it changes nothing, or where it takes the last leg past the end.
   */
  lemma ReorderOnListedLegs(legs: Table, activity: Id, s: seq<Id>, legId: Id, newPos: int, order: seq<Id>)
    requires Lists(legs, activity, s) && UniqueNumbers(legs) && legId in LegsOf(legs, activity) && newPos >= 1
    requires IsVisitOrder(legs, activity, legId, newPos, order)
    ensures Reorder(legs, legId, newPos, order).Ok? <==>
              newPos == legs[legId].number || (legs[legId].number == |s| && newPos > |s|)
  {
    var oldPos := legs[legId].number;
    NumberIsPlace(legs, activity, s, legId);
    if oldPos == newPos {
    } else if oldPos == |s| && newPos > |s| {
      forall id | id in LegsOf(legs, activity) ensures legs[id].number <= |s| { NumberIsPlace(legs, activity, s, id); }
      FreeReorderMoves(legs, legId, newPos, order);
    } else {
      var x := s[oldPos - 1 - Step(oldPos, newPos)];
      assert x in s && x in LegsOf(legs, activity);
      NeighbourBlocksReorder(legs, legId, newPos, order, x);
    }
  }
}
