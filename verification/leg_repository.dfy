/** The leg statements and the commands built from them, against the constrained table. */
module LegRepository {
  import opened Common
  import opened LegTable

  /** Some of the legs, lowest number first. */
  ghost predicate IsListing(legs: Table, ids: set<Id>, r: seq<Id>) {
    && (forall id :: id in r <==> id in ids) && (forall id | id in ids :: id in legs)
    && (forall i, j | 0 <= i < j < |r| :: r[i] in legs && r[j] in legs && legs[r[i]].number < legs[r[j]].number)
  }

  /** The numbering the table is meant to have between commands. */
  predicate Numbered(legs: Table) {
    UniqueNumbers(legs) && Positive(legs)
  }

  predicate Positive(legs: Table) {
    forall id | id in legs :: legs[id].number >= 1
  }

  /** One more than the highest number of the activity, 1 if it has no legs. */
  ghost predicate IsNextNumber(legs: Table, activity: Id, n: int) {
    && (forall id | id in LegsOf(legs, activity) :: legs[id].number < n)
    && (if LegsOf(legs, activity) == {} then n == 1
        else exists id :: id in LegsOf(legs, activity) && legs[id].number == n - 1)
  }

  function TitleOf(title: Option<Result<string, LegError>>): Option<string> {
    if title.Some? && title.value.Ok? then Some(title.value.value) else None
  }

  lemma NextIsFree(legs: Table, activity: Id, n: int, id: Id)
    requires IsNextNumber(legs, activity, n)
    ensures !Held(legs, activity, n, id)
  {
    forall x | x in legs && legs[x].activity == activity ensures legs[x].number < n { assert x in LegsOf(legs, activity); }
  }

  lemma AppendedIsUnique(legs: Table, id: Id, leg: Leg)
    requires UniqueNumbers(legs) && id !in legs && !Held(legs, leg.activity, leg.number, id)
    ensures UniqueNumbers(legs[id := leg])
  {
  }

  class PgLegRepository {
    var legs: Table

    constructor ()
      ensures legs == map[]
    {
      legs := map[];
    }

    method FindLeg(id: Id) returns (r: Option<Leg>)
      ensures r == if id in legs then Some(legs[id]) else None
    {
      r := if id in legs then Some(legs[id]) else None;
    }

    /** ORDER BY leg_number. */
    method ListLegs(activity: Id) returns (r: seq<Id>)
      requires UniqueNumbers(legs)
      ensures IsListing(legs, LegsOf(legs, activity), r)
    {
      r := [];
      var rest := LegsOf(legs, activity);
      while rest != {}
        invariant rest <= LegsOf(legs, activity)
        invariant IsListing(legs, LegsOf(legs, activity) - rest, r)
        invariant forall a, b | a in r && b in rest :: legs[a].number < legs[b].number
        decreases rest
      {
        var low := Lowest(rest);
        forall b | b in rest && b != low ensures legs[low].number < legs[b].number {
          assert b in LegsOf(legs, activity) && low in LegsOf(legs, activity);
        }
        r := r + [low];
        rest := rest - {low};
      }
    }

    method Lowest(ids: set<Id>) returns (low: Id)
      requires ids != {} && ids <= legs.Keys
      ensures low in ids && forall id | id in ids :: legs[low].number <= legs[id].number
    {
      low :| low in ids;
      var rest := ids - {low};
      while rest != {}
        invariant low in ids && rest <= ids
        invariant forall id | id in ids - rest :: legs[low].number <= legs[id].number
        decreases rest
      {
        var id :| id in rest;
        rest := rest - {id};
        if legs[id].number < legs[low].number { low := id; }
      }
    }

    /** COALESCE(MAX(leg_number), 0) + 1. */
    method NextLegNumber(activity: Id) returns (n: int)
      ensures IsNextNumber(legs, activity, n)
    {
      var rest := LegsOf(legs, activity);
      if rest == {} { return 1; }
      var top :| top in rest;
      rest := rest - {top};
      while rest != {}
        invariant top in LegsOf(legs, activity) && rest <= LegsOf(legs, activity)
        invariant forall id | id in LegsOf(legs, activity) - rest :: legs[id].number <= legs[top].number
        decreases rest
      {
        var id :| id in rest;
        rest := rest - {id};
        if legs[id].number > legs[top].number { top := id; }
      }
      return legs[top].number + 1;
    }

    method SaveLeg(id: Id, leg: Leg) returns (r: Result<(), LegError>)
      modifies this
      ensures r.Err? <==> id in old(legs) || Held(old(legs), leg.activity, leg.number, id)
      ensures legs == if r.Ok? then old(legs)[id := leg] else old(legs)
    {
      if id in legs || Held(legs, leg.activity, leg.number, id) { return Err(UniqueViolation); }
      legs := legs[id := leg];
      return Ok(());
    }

    method UpdateLeg(id: Id, leg: Leg) returns (r: Result<(), LegError>)
      requires id in legs ==> leg.activity == legs[id].activity
      modifies this
      ensures r.Err? <==> id in old(legs) && Held(old(legs), leg.activity, leg.number, id)
      ensures legs == if r.Ok? && id in old(legs) then old(legs)[id := leg] else old(legs)
    {
      if id in legs {
        if Held(legs, leg.activity, leg.number, id) { return Err(UniqueViolation); }
        legs := legs[id := leg];
      }
      return Ok(());
    }

    method DeleteLeg(id: Id)
      modifies this
      ensures legs == old(legs) - {id}
    {
      legs := legs - {id};
    }

    /** One UPDATE over the visited rows; a violation takes back the whole statement. */
    method ShiftLegs(order: seq<Id>, step: int) returns (r: Result<(), LegError>)
      requires forall id | id in order :: id in legs
      modifies this
      ensures ShiftRows(old(legs), order, step) == if r.Ok? then Ok(legs) else Err(r.error)
      ensures r.Err? ==> legs == old(legs) && r.error == UniqueViolation
    {
      var start, i := legs, 0;
      while i < |order|
        invariant 0 <= i <= |order| && legs.Keys == start.Keys
        invariant ShiftRows(start, order, step) == ShiftRows(legs, order[i..], step)
      {
        var id := order[i];
        assert id in order;
        assert order[i..][0] == id && order[i..][1..] == order[i + 1..];
        var leg := legs[id];
        if Held(legs, leg.activity, leg.number + step, id) {
          legs := start;
          return Err(UniqueViolation);
        }
        legs := legs[id := leg.(number := leg.number + step)];
        i := i + 1;
      }
      return Ok(());
    }

    /** Read the leg, shift the others, then set the leg's own number; three statements, no transaction. */
    method ReorderLegs(activity: Id, legId: Id, newPos: int, order: seq<Id>) returns (r: Result<(), LegError>)
      requires UniqueNumbers(legs)
      requires legId in legs ==> legs[legId].activity == activity && IsVisitOrder(legs, activity, legId, newPos, order)
      modifies this
      ensures Reorder(old(legs), legId, newPos, order) == if r.Ok? then Ok(legs) else Err(r.error)
      ensures r.Err? ==> legs == old(legs)
      ensures r.Ok? ==> legId in old(legs) && legs == Moved(old(legs), activity, legId, newPos)
      ensures UniqueNumbers(legs)
    {
      var current := FindLeg(legId);
      if current.None? { return Err(LegNotFound); }
      var oldPos := current.value.number;
      if oldPos == newPos {
        assert Moved(legs, activity, legId, newPos) == legs;
        return Ok(());
      }
      ghost var start := legs;
      r := ShiftLegs(order, if newPos < oldPos then 1 else -1);
      if r.Err? { return; }
      ShiftedReorderMoves(start, legId, newPos, order);
      legs := legs[legId := legs[legId].(number := newPos)];
    }

    /**
     Appends a leg behind the highest number, up to the limit.  `title` is what validating it gives, if there is one.
     A negative number would turn into a large one in 32 bits.
     */
    method AddLeg(id: Id, activity: Id, title: Option<Result<string, LegError>>, date: Time)
        returns (r: Result<(), LegError>, ghost n: int)
      requires UniqueNumbers(legs) && id !in legs
      modifies this
      ensures IsNextNumber(old(legs), activity, n)
      ensures if n > 30 || n < 0 then r == Err(MaxLegsExceeded)
              else if title.Some? && title.value.Err? then r == Err(title.value.error)
              else if n == 0 then r == Err(InvalidLegNumber)
              else r.Ok?
      ensures legs == if r.Ok? then old(legs)[id := Leg(activity, n, TitleOf(title), date)] else old(legs)
      ensures forall s | Lists(old(legs), activity, s) :: n == |s| + 1 && (r.Ok? ==> Lists(legs, activity, s + [id]))
      ensures UniqueNumbers(legs)
    {
      hide Held, UniqueNumbers;
      var next := NextLegNumber(activity);
      n := next;
      ghost var start := legs;
      forall s | Lists(start, activity, s) ensures n == |s| + 1 {
        NextOfListed(start, activity, s, n);
      }
      if next > MAX_LEGS || next < 0 { return Err(MaxLegsExceeded), n; }
      if title.Some? && title.value.Err? { return Err(title.value.error), n; }
      if next < 1 { return Err(InvalidLegNumber), n; }
      NextIsFree(legs, activity, next, id);
      r := SaveLeg(id, Leg(activity, next, TitleOf(title), date));
      AppendedIsUnique(start, id, Leg(activity, next, TitleOf(title), date));
      forall s | Lists(start, activity, s) ensures Lists(legs, activity, s + [id]) {
        assert LegsOf(legs, activity) == LegsOf(start, activity) + {id};
      }
    }

    /** Gives the listed legs the numbers 1, 2, 3 and so on, lowest first, one UPDATE at a time. */
    method Renumber(activity: Id, remaining: seq<Id>) returns (r: Result<(), LegError>, ghost upTo: nat)
      requires Positive(legs) && IsListing(legs, LegsOf(legs, activity), remaining)
      modifies this
      ensures upTo <= |remaining| && legs == Renumbered(old(legs), remaining, upTo)
      ensures r.Ok? ==> upTo == |remaining|
      ensures r.Err? ==> r.error == MaxLegsExceeded && |remaining| > 30
    {
      ghost var mid := legs;
      for i := 0 to |remaining|
        invariant legs == Renumbered(mid, remaining, i)
      {
        var id, expected := remaining[i], i + 1;
        assert id in legs && legs[id] == mid[id] && mid[id].activity == activity by {
          RenumberedAt(mid, activity, remaining, i, i);
        }
        if legs[id].number != expected {
          if expected > MAX_LEGS { return Err(MaxLegsExceeded), i; }
          RenumberIsFree(mid, activity, remaining, i);
          r := UpdateLeg(id, legs[id].(number := expected));
        }
      }
      return Ok(()), |remaining|;
    }

    /** Deletes the leg and renumbers what is left of its activity. */
    method RemoveLeg(legId: Id) returns (r: Result<(), LegError>, ghost left: seq<Id>)
      requires Numbered(legs)
      modifies this
      ensures Numbered(legs)
      ensures legId !in old(legs) ==> r == Err(LegNotFound) && legs == old(legs)
      ensures legId in old(legs) ==>
                var activity := old(legs)[legId].activity;
                && IsListing(old(legs), LegsOf(old(legs), activity) - {legId}, left)
                && legs.Keys == old(legs).Keys - {legId}
                && (r.Ok? ==> Lists(legs, activity, left))
                && (r.Err? ==> r.error == MaxLegsExceeded && |left| > 30)
                && (forall x | x in legs :: legs[x] == old(legs)[x].(number := legs[x].number)
                      && (legs[x].activity != activity ==> legs[x] == old(legs)[x]))
    {
      left := [];
      var leg := FindLeg(legId);
      if leg.None? { return Err(LegNotFound), left; }
      var activity := leg.value.activity;
      DeleteLeg(legId);
      assert LegsOf(legs, activity) == LegsOf(old(legs), activity) - {legId};
      var remaining := ListLegs(activity);
      left := remaining;
      ghost var mid := legs;
      ghost var upTo;
      r, upTo := Renumber(activity, remaining);
      RenumberedIsNumbered(mid, activity, remaining, upTo);
      forall x | x in mid
        ensures x in legs && legs[x] == mid[x].(number := legs[x].number)
        ensures mid[x].activity != activity ==> legs[x] == mid[x]
      {
        RenumberedKeepsRest(mid, activity, left, upTo, x);
      }
      assert LegsOf(legs, activity) == LegsOf(mid, activity);
      ListingIsDistinct(mid, LegsOf(mid, activity), left);
      if r.Ok? {
        forall k | 0 <= k < |left| ensures left[k] in legs && legs[left[k]].number == k + 1 {
          RenumberedAt(mid, activity, left, upTo, k);
        }
      }
    }
  }

  lemma ListingIsDistinct(legs: Table, ids: set<Id>, r: seq<Id>)
    requires IsListing(legs, ids, r)
    ensures Distinct(r)
  {
    forall i, j | 0 <= i < j < |r| ensures r[i] != r[j] { assert legs[r[i]].number < legs[r[j]].number; }
  }

  lemma {:induction false} ListingNumberAtLeast(legs: Table, ids: set<Id>, r: seq<Id>, i: nat)
    requires IsListing(legs, ids, r) && i < |r| && forall id | id in ids :: legs[id].number >= 1
    ensures r[i] in ids && r[i] in legs && legs[r[i]].number >= i + 1
  {
    assert r[i] in r;
    if i > 0 { ListingNumberAtLeast(legs, ids, r, i - 1); }
  }

  /** The table once the first `i` listed legs have their new numbers. */
  function Renumbered(mid: Table, r: seq<Id>, i: nat): (t: Table)
    requires i <= |r|
    ensures t.Keys == mid.Keys
  {
    if i == 0 then mid
    else
      var t := Renumbered(mid, r, i - 1);
      if r[i - 1] in t then t[r[i - 1] := t[r[i - 1]].(number := i)] else t
  }

  lemma {:induction false} RenumberedKeepsRest(mid: Table, activity: Id, r: seq<Id>, i: nat, x: Id)
    requires IsListing(mid, LegsOf(mid, activity), r) && i <= |r| && x in mid
    ensures Renumbered(mid, r, i)[x] == mid[x].(number := Renumbered(mid, r, i)[x].number)
    ensures x !in r[..i] ==> Renumbered(mid, r, i)[x] == mid[x]
    ensures mid[x].activity != activity ==> Renumbered(mid, r, i)[x] == mid[x]
    decreases i
  {
    if i > 0 {
      RenumberedKeepsRest(mid, activity, r, i - 1, x);
      assert r[..i] == r[..i - 1] + [r[i - 1]];
      assert r[i - 1] in r;
    }
  }

  lemma {:induction false} RenumberedAt(mid: Table, activity: Id, r: seq<Id>, i: nat, k: nat)
    requires IsListing(mid, LegsOf(mid, activity), r) && i <= |r| && k < |r|
    ensures r[k] in mid && mid[r[k]].activity == activity && r[k] in Renumbered(mid, r, i)
    ensures Renumbered(mid, r, i)[r[k]] == if k < i then mid[r[k]].(number := k + 1) else mid[r[k]]
    decreases i
  {
    assert r[k] in r;
    if i > 0 {
      RenumberedAt(mid, activity, r, i - 1, k);
      if k != i - 1 {
        ListingIsDistinct(mid, LegsOf(mid, activity), r);
      }
    }
  }

  /** Renumbering lowest first always moves a leg down onto a number nobody holds. */
  lemma RenumberIsFree(mid: Table, activity: Id, r: seq<Id>, i: nat)
    requires IsListing(mid, LegsOf(mid, activity), r) && i < |r|
    requires Positive(mid)
    requires r[i] in mid && mid[r[i]].number != i + 1
    ensures !Held(Renumbered(mid, r, i), activity, i + 1, r[i])
  {
    hide Renumbered, IsListing, Positive;
    var legs := Renumbered(mid, r, i);
    forall x | x in legs && x != r[i] && legs[x].activity == activity ensures legs[x].number != i + 1 {
      RenumberedKeepsRest(mid, activity, r, i, x);
      assert x in LegsOf(mid, activity);
      ListingHas(mid, activity, r, x);
      var k :| 0 <= k < |r| && r[k] == x;
      RenumberedAvoids(mid, activity, r, i, k);
    }
  }

  lemma ListingHas(legs: Table, activity: Id, r: seq<Id>, x: Id)
    requires IsListing(legs, LegsOf(legs, activity), r) && x in LegsOf(legs, activity)
    ensures x in r
  {
  }

  /** The other legs stand on lower numbers already given, or higher up than the leg that is next. */
  lemma RenumberedAvoids(mid: Table, activity: Id, r: seq<Id>, i: nat, k: nat)
    requires Positive(mid) && IsListing(mid, LegsOf(mid, activity), r) && i < |r| && k < |r| && k != i
    requires r[i] in mid && mid[r[i]].number != i + 1
    ensures r[k] in Renumbered(mid, r, i) && Renumbered(mid, r, i)[r[k]].number != i + 1
  {
    hide Renumbered;
    RenumberedAt(mid, activity, r, i, k);
    ListingNumberAtLeast(mid, LegsOf(mid, activity), r, i);
  }

  lemma RenumberedApart(mid: Table, activity: Id, r: seq<Id>, i: nat, k: nat, l: nat)
    requires Positive(mid) && IsListing(mid, LegsOf(mid, activity), r) && i <= |r| && k < l < |r|
    ensures r[k] in mid && r[l] in mid && Renumbered(mid, r, i)[r[k]].number != Renumbered(mid, r, i)[r[l]].number
  {
    RenumberedAt(mid, activity, r, i, k);
    RenumberedAt(mid, activity, r, i, l);
    ListingNumberAtLeast(mid, LegsOf(mid, activity), r, l);
  }

  lemma RenumberedIsNumbered(mid: Table, activity: Id, r: seq<Id>, i: nat)
    requires Numbered(mid) && IsListing(mid, LegsOf(mid, activity), r) && i <= |r|
    ensures Numbered(Renumbered(mid, r, i))
  {
    var t := Renumbered(mid, r, i);
    forall x | x in t ensures t[x].number >= 1 && t[x].activity == mid[x].activity {
      RenumberedKeepsRest(mid, activity, r, i, x);
      if mid[x].activity == activity {
        assert x in LegsOf(mid, activity);
        var k :| 0 <= k < |r| && r[k] == x;
        RenumberedAt(mid, activity, r, i, k);
      }
    }
    forall x, y | x in t && y in t && t[x].activity == t[y].activity && t[x].number == t[y].number ensures x == y {
      if t[x].activity == activity {
        assert x in LegsOf(mid, activity) && y in LegsOf(mid, activity);
        var k :| 0 <= k < |r| && r[k] == x;
        var l :| 0 <= l < |r| && r[l] == y;
        if k < l { RenumberedApart(mid, activity, r, i, k, l); }
        if l < k { RenumberedApart(mid, activity, r, i, l, k); }
      } else {
        RenumberedKeepsRest(mid, activity, r, i, x);
        RenumberedKeepsRest(mid, activity, r, i, y);
      }
    }
  }

  lemma NextOfListed(legs: Table, activity: Id, s: seq<Id>, n: int)
    requires Lists(legs, activity, s)
    requires IsNextNumber(legs, activity, n)
    ensures n == |s| + 1
  {
    if s == [] {
      assert LegsOf(legs, activity) == {};
    } else {
      assert s[|s| - 1] in s;
      if n != 1 {
        var id :| id in LegsOf(legs, activity) && legs[id].number == n - 1;
        NumberIsPlace(legs, activity, s, id);
      }
    }
  }
}
