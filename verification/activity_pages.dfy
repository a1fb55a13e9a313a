/** Keyset pagination of an owner's activities over `started_at DESC NULLS LAST, id DESC`. */
module ActivityPages {
  import opened Common

  datatype Activity = Activity(owner: Id, title: string, lifecycle: string, startedAt: Option<Time>)

  type Table = map<Id, Activity>

  /** A returned row with its id. */
  datatype Item = Item(id: Id, activity: Activity)

  /** What a cursor carries, and what the rows are ordered by. */
  datatype Key = Key(startedAt: Option<Time>, id: Id)

  datatype Page = Page(items: seq<Item>, next: Option<Key>, hasMore: bool)

  const DEFAULT_PAGE_SIZE := 25
  const MAX_PAGE_SIZE := 100

  function KeyOf(item: Item): Key {
    Key(item.activity.startedAt, item.id)
  }

  /** `a` is listed strictly before `b`. */
  predicate Before(a: Key, b: Key) {
    match (a.startedAt, b.startedAt)
    case (Some(s), Some(t)) => s > t || (s == t && a.id > b.id)
    case (Some(_), None) => true
    case (None, Some(_)) => false
    case (None, None) => a.id > b.id
  }

  predicate Visible(activity: Activity, owner: Id) {
    activity.owner == owner && activity.lifecycle != "deleted"
  }

  // ----- the three WHERE clauses; a comparison with NULL is never true -----

  predicate MatchFirst(a: Activity, owner: Id) {
    a.owner == owner && a.lifecycle != "deleted"
  }

  predicate MatchAfterTime(a: Activity, id: Id, owner: Id, startedAt: Time, cursorId: Id) {
    && a.owner == owner && a.lifecycle != "deleted"
    && ((a.startedAt.Some? && a.startedAt.value < startedAt)
        || (a.startedAt.Some? && a.startedAt.value == startedAt && id < cursorId)
        || a.startedAt.None?)
  }

  predicate MatchAfterNull(a: Activity, id: Id, owner: Id, cursorId: Id) {
    a.owner == owner && a.lifecycle != "deleted" && a.startedAt.None? && id < cursorId
  }

  predicate Matches(a: Activity, id: Id, owner: Id, cursor: Option<Key>) {
    match cursor
    case None => MatchFirst(a, owner)
    case Some(Key(Some(t), cursorId)) => MatchAfterTime(a, id, owner, t, cursorId)
    case Some(Key(None, cursorId)) => MatchAfterNull(a, id, owner, cursorId)
  }

  function Query(table: Table, owner: Id, cursor: Option<Key>): set<Item> {
    set id | id in table && Matches(table[id], id, owner, cursor) :: Item(id, table[id])
  }

  predicate After(cursor: Option<Key>, key: Key) {
    cursor.None? || Before(cursor.value, key)
  }

  /** The SQL conditions say "visible, and strictly after the cursor", in each of the three shapes. */
  lemma WhereClauseIsStrictlyAfter(a: Activity, id: Id, owner: Id, cursor: Option<Key>)
    ensures Matches(a, id, owner, cursor) <==> Visible(a, owner) && After(cursor, Key(a.startedAt, id))
  {
  }

  lemma BeforeIsTotalOrder(a: Key, b: Key, c: Key)
    ensures !Before(a, a)
    ensures Before(a, b) && Before(b, c) ==> Before(a, c)
    ensures a != b ==> Before(a, b) || Before(b, a)
    ensures !(Before(a, b) && Before(b, a))
  {
  }

  // ----- ORDER BY -----

  predicate Sorted(items: seq<Item>) {
    forall i, j | 0 <= i < j < |items| :: Before(KeyOf(items[i]), KeyOf(items[j]))
  }

  predicate DistinctKeys(rows: set<Item>) {
    forall a, b | a in rows && b in rows && KeyOf(a) == KeyOf(b) :: a == b
  }

  ghost predicate IsFirst(rows: set<Item>, x: Item) {
    x in rows && forall y | y in rows && y != x :: Before(KeyOf(x), KeyOf(y))
  }

  lemma {:induction false} FirstExists(rows: set<Item>)
    requires rows != {} && DistinctKeys(rows)
    ensures exists x :: IsFirst(rows, x)
    decreases rows
  {
    var x :| x in rows;
    if rows == {x} {
      assert IsFirst(rows, x);
    } else {
      FirstExists(rows - {x});
      var y :| IsFirst(rows - {x}, y);
      if Before(KeyOf(y), KeyOf(x)) {
        assert IsFirst(rows, y);
      } else {
        forall z | z in rows && z != x ensures Before(KeyOf(x), KeyOf(z)) {
          BeforeIsTotalOrder(KeyOf(x), KeyOf(y), KeyOf(z));
        }
        assert IsFirst(rows, x);
      }
    }
  }

  /** The rows in listing order. */
  ghost function Ordered(rows: set<Item>): seq<Item>
    requires DistinctKeys(rows)
    decreases rows
  {
    if rows == {} then []
    else
      FirstExists(rows);
      var x :| IsFirst(rows, x);
      [x] + Ordered(rows - {x})
  }

  lemma FirstThenRest(rows: set<Item>, x: Item, rest: seq<Item>)
    requires IsFirst(rows, x) && Sorted(rest) && forall y :: y in rest <==> y in rows && y != x
    ensures Sorted([x] + rest) && forall y :: y in [x] + rest <==> y in rows
  {
    hide Before, KeyOf;
    var out := [x] + rest;
    assert x in rows;
    forall i, j | 0 <= i < j < |out| ensures Before(KeyOf(out[i]), KeyOf(out[j])) {
      assert out[j] == rest[j - 1] && out[j] in rest;
      assert i > 0 ==> out[i] == rest[i - 1];
    }
  }

  lemma {:induction false} OrderedIsSorted(rows: set<Item>)
    requires DistinctKeys(rows)
    ensures Sorted(Ordered(rows)) && (set x | x in Ordered(rows)) == rows && |Ordered(rows)| == |rows|
    decreases rows
  {
    hide Before, KeyOf, Sorted;
    if rows == {} {
      NothingIsSorted();
    } else {
      var out := Ordered(rows);
      OrderedIsSorted(rows - {out[0]});
      assert IsFirst(rows, out[0]) && out[1..] == Ordered(rows - {out[0]});
      assert forall x :: x in out[1..] <==> x in (set y | y in out[1..]);
      FirstThenRest(rows, out[0], out[1..]);
      assert out == [out[0]] + out[1..];
    }
  }

  lemma NothingIsSorted()
    ensures Sorted([])
  {
  }

  /** Only one listing of the rows is in order. */
  lemma {:induction false} SortedIsUnique(a: seq<Item>, b: seq<Item>)
    requires Sorted(a) && Sorted(b) && (set x | x in a) == (set x | x in b)
    ensures a == b
    decreases |a|
  {
    var sa, sb := set x | x in a, set x | x in b;
    assert forall i | 0 <= i < |b| :: b[i] in sb;
    if a != [] {
      assert a[0] in sa;
      var j :| 0 <= j < |b| && b[j] == a[0];
      assert b[0] in sb;
      var i :| 0 <= i < |a| && a[i] == b[0];
      if a[0] != b[0] {
        BeforeIsTotalOrder(KeyOf(a[0]), KeyOf(b[0]), KeyOf(a[0]));
      }
      SortedTail(a);
      SortedTail(b);
      SortedIsUnique(a[1..], b[1..]);
    }
  }

  lemma SortedTail(a: seq<Item>)
    requires Sorted(a) && a != []
    ensures Sorted(a[1..]) && (set x | x in a[1..]) == (set x | x in a) - {a[0]}
  {
    forall i | 0 <= i < |a[1..]| ensures a[1..][i] != a[0] { assert Before(KeyOf(a[0]), KeyOf(a[i + 1])); }
    assert a == [a[0]] + a[1..];
  }

  lemma QueryHasDistinctKeys(table: Table, owner: Id, cursor: Option<Key>)
    ensures DistinctKeys(Query(table, owner, cursor))
  {
  }

  // ----- list_activities -----

  /** One page: fetch a row more than asked for, and point the cursor at the last row kept. */
  ghost function ListActivities(table: Table, owner: Id, cursor: Option<Key>, pageSize: nat): Page {
    QueryHasDistinctKeys(table, owner, cursor);
    var all := Ordered(Query(table, owner, cursor));
    var rows := if |all| <= pageSize + 1 then all else all[..pageSize + 1];
    var hasMore := |rows| > pageSize;
    var items := if |rows| <= pageSize then rows else rows[..pageSize];
    Page(items, if hasMore && items != [] then Some(KeyOf(items[|items| - 1])) else None, hasMore)
  }

  function Distance(a: int, b: int): nat {
    if a < b then b - a else a - b
  }

  /** The page size the query handler passes on: the nearest that is allowed. */
  function Clamp(requested: Option<nat>): (p: nat)
    ensures 1 <= p <= 100 && (requested.None? ==> p == 25)
    ensures requested.Some? ==> forall q | 1 <= q <= 100 :: Distance(p, requested.value) <= Distance(q, requested.value)
  {
    var n := if requested.Some? then requested.value else DEFAULT_PAGE_SIZE;
    if n < 1 then 1 else if n > MAX_PAGE_SIZE then MAX_PAGE_SIZE else n
  }

  /** A page is the front of the listing, and its cursor the key it ends with if anything is left. */
  lemma PageIsPrefix(table: Table, owner: Id, cursor: Option<Key>, p: nat)
    requires p >= 1
    ensures DistinctKeys(Query(table, owner, cursor))
    ensures var all := Ordered(Query(table, owner, cursor)); var page := ListActivities(table, owner, cursor, p);
            && Sorted(all) && |all| == |Query(table, owner, cursor)|
            && (forall x :: x in all <==> x in Query(table, owner, cursor))
            && page.items == (if |all| <= p then all else all[..p])
            && page.next == (if |all| <= p then None else Some(KeyOf(all[p - 1])))
            && page.hasMore == (|all| > p)
  {
    hide Before, Matches, DistinctKeys, Ordered, Sorted;
    QueryHasDistinctKeys(table, owner, cursor);
    OrderedIsSorted(Query(table, owner, cursor));
    var all := Ordered(Query(table, owner, cursor));
    assert forall x :: x in all <==> x in (set y | y in all);
  }

  /** A page on the columns: live rows of the owner, latest start first and rows without one last, ids descending. */
  lemma PageShowsColumns(table: Table, owner: Id, cursor: Option<Key>, p: nat)
    requires p >= 1
    ensures var items := ListActivities(table, owner, cursor, p).items;
            && |items| <= p
            && (forall x | x in items ::
                  x.id in table && table[x.id] == x.activity && x.activity.owner == owner && x.activity.lifecycle != "deleted")
            && (forall i, j | 0 <= i < j < |items| ::
                  var (a, b) := (items[i].activity.startedAt, items[j].activity.startedAt);
                  && (a.Some? && b.Some? ==> a.value >= b.value)
                  && (a.None? ==> b.None?)
                  && (a == b ==> items[i].id > items[j].id))
            && (cursor.Some? ==>
                  forall x | x in items ::
                    var (a, b) := (cursor.value.startedAt, x.activity.startedAt);
                    && (a.Some? && b.Some? ==> a.value >= b.value)
                    && (a.None? ==> b.None?)
                    && (a == b ==> cursor.value.id > x.id))
  {
    PageIsPrefix(table, owner, cursor, p);
    var items := ListActivities(table, owner, cursor, p).items;
    assert Sorted(items) by { PageIsInterval(table, owner, cursor, p, Item(0, Activity(0, "", "", None))); }
    forall x | x in items
      ensures x.id in table && table[x.id] == x.activity && Visible(x.activity, owner) && After(cursor, KeyOf(x))
    {
      PageIsInterval(table, owner, cursor, p, x);
      WhereClauseIsStrictlyAfter(x.activity, x.id, owner, cursor);
    }
    hide ListActivities, Matches;
    forall i, j | 0 <= i < j < |items| ensures Before(KeyOf(items[i]), KeyOf(items[j])) { }
  }

  /** What stands behind position p of a listing is what comes strictly after its p-th row. */
  lemma RestMembers(all: seq<Item>, p: nat, x: Item)
    requires Sorted(all) && 1 <= p <= |all|
    ensures x in all[p..] <==> x in all && Before(KeyOf(all[p - 1]), KeyOf(x))
    ensures x in all[..p] <==> x in all && !Before(KeyOf(all[p - 1]), KeyOf(x))
  {
    BeforeIsTotalOrder(KeyOf(x), KeyOf(all[p - 1]), KeyOf(x));
    assert all == all[..p] + all[p..];
    assert forall i | 0 <= i < |all[p..]| :: all[p..][i] == all[p + i];
    assert forall i | 0 <= i < p :: all[..p][i] == all[i];
  }

  /** A page takes the visible rows from its cursor up to its last row, and leaves those behind it. */
  lemma PageIsInterval(table: Table, owner: Id, cursor: Option<Key>, p: nat, x: Item)
    requires p >= 1
    ensures var page := ListActivities(table, owner, cursor, p); var rows := Query(table, owner, cursor);
            && Sorted(page.items)
            && (x in page.items <==> x in rows && (page.next.Some? ==> !Before(page.next.value, KeyOf(x))))
            && (page.next.Some? ==> After(cursor, page.next.value))
  {
    PageIsPrefix(table, owner, cursor, p);
    var all := Ordered(Query(table, owner, cursor));
    if |all| > p {
      RestMembers(all, p, x);
      var last := all[p - 1];
      assert last in all;
      WhereClauseIsStrictlyAfter(last.activity, last.id, owner, cursor);
    }
  }

  // ----- a walk over a table that changes between pages -----

  /** Page i is read from tables[i]; the walk is complete when only its last page has no cursor. */
  ghost predicate CompleteWalk(tables: seq<Table>, owner: Id, cursor: Option<Key>, p: nat)
    decreases |tables|
  {
    tables != [] &&
    var page := ListActivities(tables[0], owner, cursor, p);
    if page.next.None? then |tables| == 1 else CompleteWalk(tables[1..], owner, page.next, p)
  }

  ghost function WalkItems(tables: seq<Table>, owner: Id, cursor: Option<Key>, p: nat): seq<Item>
    decreases |tables|
  {
    if tables == [] then []
    else
      var page := ListActivities(tables[0], owner, cursor, p);
      page.items + if page.next.None? then [] else WalkItems(tables[1..], owner, page.next, p)
  }

  function Occurrences(items: seq<Item>, id: Id): nat {
    if items == [] then 0 else (if items[0].id == id then 1 else 0) + Occurrences(items[1..], id)
  }

  lemma {:induction false} OccurrencesAdd(a: seq<Item>, b: seq<Item>, id: Id)
    ensures Occurrences(a + b, id) == Occurrences(a, id) + Occurrences(b, id)
  {
    if a == [] {
      assert a + b == b;
    } else {
      assert (a + b)[1..] == a[1..] + b;
      OccurrencesAdd(a[1..], b, id);
    }
  }

  /** Live, of this owner and with the same key in every table of the walk; other columns may change. */
  predicate Steady(tables: seq<Table>, owner: Id, key: Key) {
    forall i | 0 <= i < |tables| ::
      && key.id in tables[i] && tables[i][key.id].owner == owner && tables[i][key.id].lifecycle != "deleted"
      && tables[i][key.id].startedAt == key.startedAt
  }

  lemma {:induction false} OccurrencesInPage(items: seq<Item>, key: Key)
    requires Sorted(items) && forall x | x in items && x.id == key.id :: KeyOf(x) == key
    ensures Occurrences(items, key.id) == if exists x | x in items :: x.id == key.id then 1 else 0
  {
    if items != [] {
      assert items == [items[0]] + items[1..];
      OccurrencesInPage(items[1..], key);
      if items[0].id == key.id {
        forall x | x in items[1..] ensures x.id != key.id {
          var i :| 0 <= i < |items[1..]| && items[1..][i] == x;
          assert Before(KeyOf(items[0]), KeyOf(items[i + 1]));
          BeforeIsTotalOrder(key, key, key);
        }
      }
    }
  }

  /**
   A steady activity behind the cursor is returned exactly once, one that is not is never
   returned, whatever happens to all other rows, the cursor's own included.
   */
  lemma {:induction false} SteadyIsReturnedOnce(tables: seq<Table>, owner: Id, cursor: Option<Key>, p: nat, key: Key)
    requires p >= 1 && CompleteWalk(tables, owner, cursor, p) && Steady(tables, owner, key)
    ensures Occurrences(WalkItems(tables, owner, cursor, p), key.id) == if After(cursor, key) then 1 else 0
    decreases |tables|
  {
    var page := ListActivities(tables[0], owner, cursor, p);
    var x := Item(key.id, tables[0][key.id]);
    PageIsInterval(tables[0], owner, cursor, p, x);
    WhereClauseIsStrictlyAfter(x.activity, key.id, owner, cursor);
    assert x in Query(tables[0], owner, cursor) <==> After(cursor, key);
    forall y | y in page.items && y.id == key.id ensures y == x {
      PageIsInterval(tables[0], owner, cursor, p, y);
    }
    OccurrencesInPage(page.items, key);
    if page.next.None? {
      assert page.items + [] == page.items;
    } else {
      SteadyIsReturnedOnce(tables[1..], owner, page.next, p, key);
      OccurrencesAdd(page.items, WalkItems(tables[1..], owner, page.next, p), key.id);
      if cursor.Some? { BeforeIsTotalOrder(cursor.value, page.next.value, key); }
    }
  }

  // ----- a walk over a table that stays as it is -----

  ghost function Pages(table: Table, owner: Id, cursor: Option<Key>, p: nat): seq<Page>
    requires p >= 1
    decreases |Query(table, owner, cursor)|
  {
    var page := ListActivities(table, owner, cursor, p);
    if page.next.None? then [page]
    else QueryShrinks(table, owner, cursor, p); [page] + Pages(table, owner, page.next, p)
  }

  function Concat(pages: seq<Page>): seq<Item> {
    if pages == [] then [] else pages[0].items + Concat(pages[1..])
  }

  /** What the query with a row's key as its cursor selects: the rows selected before that stand after it. */
  lemma QueryAfterRow(table: Table, owner: Id, cursor: Option<Key>, row: Item, x: Item)
    requires row in Query(table, owner, cursor)
    ensures x in Query(table, owner, Some(KeyOf(row))) <==> x in Query(table, owner, cursor) && Before(KeyOf(row), KeyOf(x))
  {
    WhereClauseIsStrictlyAfter(x.activity, x.id, owner, Some(KeyOf(row)));
    WhereClauseIsStrictlyAfter(x.activity, x.id, owner, cursor);
    WhereClauseIsStrictlyAfter(row.activity, row.id, owner, cursor);
    if cursor.Some? { BeforeIsTotalOrder(cursor.value, KeyOf(row), KeyOf(x)); }
  }

  /** The rows behind a page with a cursor are the rest of the listing. */
  lemma NextQueryIsRest(table: Table, owner: Id, cursor: Option<Key>, p: nat)
    requires p >= 1 && ListActivities(table, owner, cursor, p).next.Some?
    ensures var next := ListActivities(table, owner, cursor, p).next;
            && DistinctKeys(Query(table, owner, cursor)) && DistinctKeys(Query(table, owner, next))
            && p < |Ordered(Query(table, owner, cursor))|
            && Ordered(Query(table, owner, next)) == Ordered(Query(table, owner, cursor))[p..]
  {
    hide ListActivities, Ordered, Before, Matches, Query;
    PageIsPrefix(table, owner, cursor, p);
    var all := Ordered(Query(table, owner, cursor));
    var next := ListActivities(table, owner, cursor, p).next;
    PageIsPrefix(table, owner, next, p);
    var rest := Ordered(Query(table, owner, next));
    forall x ensures x in rest <==> x in all[p..] {
      RestMembers(all, p, x);
      assert all[p - 1] in all;
      QueryAfterRow(table, owner, cursor, all[p - 1], x);
    }
    SortedIsUnique(rest, all[p..]);
  }

  lemma QueryShrinks(table: Table, owner: Id, cursor: Option<Key>, p: nat)
    requires p >= 1 && ListActivities(table, owner, cursor, p).next.Some?
    ensures |Query(table, owner, ListActivities(table, owner, cursor, p).next)| == |Query(table, owner, cursor)| - p
  {
    var next := ListActivities(table, owner, cursor, p).next;
    NextQueryIsRest(table, owner, cursor, p);
    PageIsPrefix(table, owner, cursor, p);
    PageIsPrefix(table, owner, next, p);
  }

  /** Pages needed for n rows: one at least, otherwise n / p rounded up. */
  function PageCount(n: nat, p: nat): nat
    requires p >= 1
  {
    if n == 0 then 1 else (n + p - 1) / p
  }

  lemma PageCountStep(n: nat, p: nat)
    requires 1 <= p < n
    ensures PageCount(n, p) == 1 + PageCount(n - p, p)
  {
    var q := (n - p + p - 1) / p;
    assert n + p - 1 == (n - 1) + p;
    DivideAfterAdding(n - 1, p);
  }

  lemma DivideAfterAdding(m: nat, p: nat)
    requires p >= 1
    ensures (m + p) / p == m / p + 1
  {
    var q, r := m / p, m % p;
    assert m + p == (q + 1) * p + r;
    QuotientIsUnique(m + p, p, q + 1, r);
  }

  lemma QuotientIsUnique(m: nat, p: nat, q: nat, r: nat)
    requires p >= 1 && m == q * p + r && r < p
    ensures m / p == q
  {
    assert m == (m / p) * p + m % p;
    assert (m / p - q) * p == r - m % p;
    MultipleIsWide(m / p - q, p);
  }

  lemma MultipleIsWide(k: int, p: int)
    requires p >= 0
    ensures k >= 1 ==> k * p >= p
    ensures k <= -1 ==> k * p <= -p
  {
  }

  lemma PageCountOfOne(n: nat, p: nat)
    requires 1 <= p && n <= p
    ensures PageCount(n, p) == 1
  {
    if n != 0 { QuotientIsUnique(n + p - 1, p, 1, n - 1); }
  }

  /** The first page, and the pages that follow it. */
  lemma PagesUnfold(table: Table, owner: Id, cursor: Option<Key>, p: nat)
    requires p >= 1 && DistinctKeys(Query(table, owner, cursor))
    ensures var all := Ordered(Query(table, owner, cursor));
            var page := ListActivities(table, owner, cursor, p); var pages := Pages(table, owner, cursor, p);
            if |all| <= p then pages == [page] && page.items == all
            else page.next.Some? && pages == [page] + Pages(table, owner, page.next, p) && page.items == all[..p]
  {
    PageIsPrefix(table, owner, cursor, p);
  }

  /** Following the cursors lists every visible row once and in order. */
  lemma {:induction false} PagesListEverything(table: Table, owner: Id, cursor: Option<Key>, p: nat)
    requires p >= 1
    ensures DistinctKeys(Query(table, owner, cursor))
    ensures Concat(Pages(table, owner, cursor, p)) == Ordered(Query(table, owner, cursor))
    decreases |Query(table, owner, cursor)|
  {
    hide Before, Matches, Query, ListActivities, Ordered, Pages, DistinctKeys;
    QueryHasDistinctKeys(table, owner, cursor);
    PagesUnfold(table, owner, cursor, p);
    var all := Ordered(Query(table, owner, cursor));
    var page := ListActivities(table, owner, cursor, p);
    if |all| > p {
      QueryShrinks(table, owner, cursor, p);
      PagesListEverything(table, owner, page.next, p);
      NextQueryIsRest(table, owner, cursor, p);
      assert all == all[..p] + all[p..];
      assert ([page] + Pages(table, owner, page.next, p))[1..] == Pages(table, owner, page.next, p);
    } else {
      assert Concat([page]) == page.items + Concat([page][1..]) && Concat([page][1..]) == [];
    }
  }

  lemma {:induction false} OccurrencesInListing(items: seq<Item>, id: Id)
    requires forall i, j | 0 <= i < j < |items| :: items[i].id != items[j].id
    ensures Occurrences(items, id) == if exists x | x in items :: x.id == id then 1 else 0
  {
    if items != [] {
      assert items == [items[0]] + items[1..];
      OccurrencesInListing(items[1..], id);
    }
  }

  /** Following the cursors from the first page lists each live activity of the owner once, and nothing else. */
  lemma WalkShowsColumns(table: Table, owner: Id, p: nat, id: Id)
    requires p >= 1
    ensures Occurrences(Concat(Pages(table, owner, None, p)), id)
         == if id in table && table[id].owner == owner && table[id].lifecycle != "deleted" then 1 else 0
  {
    PagesListEverything(table, owner, None, p);
    PageIsPrefix(table, owner, None, p);
    hide Ordered, Pages, ListActivities, Concat;
    var all := Ordered(Query(table, owner, None));
    assert Item(id, if id in table then table[id] else Activity(0, "", "", None)) in Query(table, owner, None)
      <==> id in table && table[id].owner == owner && table[id].lifecycle != "deleted";
    forall i, j | 0 <= i < j < |all| ensures all[i].id != all[j].id {
      assert all[i] in all && all[j] in all;
      assert Before(KeyOf(all[i]), KeyOf(all[j]));
    }
    OccurrencesInListing(all, id);
  }

  /** It takes no more pages than the rows fill, and one page when there are none. */
  lemma {:induction false} PagesAreFew(table: Table, owner: Id, cursor: Option<Key>, p: nat)
    requires p >= 1
    ensures |Pages(table, owner, cursor, p)| == PageCount(|Query(table, owner, cursor)|, p)
    decreases |Query(table, owner, cursor)|
  {
    var n := |Query(table, owner, cursor)|;
    var page := ListActivities(table, owner, cursor, p);
    assert page.next.Some? <==> n > p by { PageIsPrefix(table, owner, cursor, p); }
    if n > p {
      QueryShrinks(table, owner, cursor, p);
      PagesAreFew(table, owner, page.next, p);
      PageCountStep(n, p);
    } else {
      PageCountOfOne(n, p);
    }
  }

  /** Page size 0, which the handler never passes on, would promise more and give no cursor to it. */
  lemma EmptyPageHasNoCursor(table: Table, owner: Id, cursor: Option<Key>)
    ensures var page := ListActivities(table, owner, cursor, 0);
            page.items == [] && page.next.None? && (page.hasMore <==> Query(table, owner, cursor) != {})
  {
    hide Before, Matches, DistinctKeys, Ordered, Sorted;
    QueryHasDistinctKeys(table, owner, cursor);
    OrderedIsSorted(Query(table, owner, cursor));
  }
}
