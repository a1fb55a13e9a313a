/** The activity table and the statements that read and change it. */
module ActivityRepository {
  import opened Common
  import opened ActivityPages

  datatype DbError = UniqueViolation

  lemma OrderedStartsWith(rows: set<Item>, first: Item)
    requires DistinctKeys(rows) && IsFirst(rows, first)
    ensures Ordered(rows) == [first] + Ordered(rows - {first})
  {
    var y := Ordered(rows)[0];
    BeforeIsTotalOrder(KeyOf(y), KeyOf(first), KeyOf(y));
  }

  lemma NothingOrdered()
    ensures Ordered({}) == []
  {
  }

  /** A row that is marked deleted is in no listing, and every other row stays in its listings. */
  lemma DeletedIsHidden(before: Table, after: Table, id: Id, owner: Id, cursor: Option<Key>)
    requires after == if id in before then before[id := before[id].(lifecycle := "deleted")] else before
    ensures Query(after, owner, cursor) == set x | x in Query(before, owner, cursor) && x.id != id
  {
    if id in after { WhereClauseIsStrictlyAfter(after[id], id, owner, cursor); }
    hide Matches, Before;
    forall x ensures x in Query(after, owner, cursor) <==> x in Query(before, owner, cursor) && x.id != id {
      assert x == Item(x.id, x.activity);
      assert x.id in before && x.id != id ==> after[x.id] == before[x.id];
    }
  }

  class PgActivityRepository {
    var table: Table

    constructor ()
      ensures table == map[]
    {
      table := map[];
    }

    method Save(id: Id, activity: Activity) returns (r: Result<(), DbError>)
      modifies this
      ensures r.Err? <==> id in old(table)
      ensures table == if r.Ok? then old(table)[id := activity] else old(table)
    {
      if id in table { return Err(UniqueViolation); }
      table := table[id := activity];
      return Ok(());
    }

    /** Every column but the owner; no row, no change. */
    method Update(id: Id, activity: Activity)
      modifies this
      ensures table == if id in old(table) then old(table)[id := activity.(owner := old(table)[id].owner)] else old(table)
    {
      if id in table {
        table := table[id := Activity(table[id].owner, activity.title, activity.lifecycle, activity.startedAt)];
      }
    }

    /** Deletion keeps the row and hides it from every listing. */
    method Delete(id: Id)
      modifies this
      ensures table == if id in old(table) then old(table)[id := old(table)[id].(lifecycle := "deleted")] else old(table)
      ensures forall owner, cursor :: Query(table, owner, cursor) == set x | x in Query(old(table), owner, cursor) && x.id != id
    {
      hide Query;
      if id in table {
        table := table[id := table[id].(lifecycle := "deleted")];
      }
      forall owner, cursor
        ensures Query(table, owner, cursor) == set x | x in Query(old(table), owner, cursor) && x.id != id
      {
        DeletedIsHidden(old(table), table, id, owner, cursor);
      }
    }

    /** ORDER BY ... LIMIT: the front of the listing. */
    method Fetch(owner: Id, cursor: Option<Key>, limit: nat) returns (rows: seq<Item>)
      ensures DistinctKeys(Query(table, owner, cursor))
      ensures var all := Ordered(Query(table, owner, cursor)); rows == if |all| <= limit then all else all[..limit]
    {
      hide Before, Query, IsFirst, Ordered;
      var rest := Query(table, owner, cursor);
      QueryHasDistinctKeys(table, owner, cursor);
      ghost var all := Ordered(rest);
      rows := [];
      while rest != {} && |rows| < limit
        invariant DistinctKeys(rest) && |rows| <= limit
        invariant all == rows + Ordered(rest)
        decreases rest
      {
        var first := First(rest);
        OrderedStartsWith(rest, first);
        rows := rows + [first];
        rest := rest - {first};
      }
      if rest == {} { NothingOrdered(); }
    }

    method First(rows: set<Item>) returns (first: Item)
      requires rows != {} && DistinctKeys(rows)
      ensures IsFirst(rows, first)
    {
      first :| first in rows;
      var rest := rows - {first};
      while rest != {}
        invariant first in rows && rest <= rows
        invariant IsFirst(rows - rest, first)
        decreases rest
      {
        var x :| x in rest;
        if Before(KeyOf(x), KeyOf(first)) {
          forall y | y in rows - rest ensures Before(KeyOf(x), KeyOf(y)) {
            BeforeIsTotalOrder(KeyOf(x), KeyOf(first), KeyOf(y));
          }
          first := x;
        }
        rest := rest - {x};
      }
    }

    method List(owner: Id, cursor: Option<Key>, pageSize: nat) returns (page: Page)
      ensures page == ListActivities(table, owner, cursor, pageSize)
    {
      var rows := Fetch(owner, cursor, pageSize + 1);
      var hasMore := |rows| > pageSize;
      var items := if |rows| <= pageSize then rows else rows[..pageSize];
      var next := if hasMore && items != [] then Some(KeyOf(items[|items| - 1])) else None;
      return Page(items, next, hasMore);
    }
  }
}
