/** How drafts are stored in Postgres, and what comes back when they are loaded again. */
module RouteRows {
  import opened Common
  import opened RouteDraft

  datatype DraftRow<G> = DraftRow(owner: Id, revision: nat, geometry: G, state: DraftState)

  datatype OpRow<G, O> = OpRow(draftId: Id, operation: O, before: G, number: int, undone: bool)

  datatype Db<G, O> = Db(drafts: map<Id, DraftRow<G>>, ops: map<Id, OpRow<G, O>>)

  /** Both stacks in the order of their sequence numbers. */
  function AllEntries<G, O>(d: Draft<G, O>): seq<Entry<G, O>> {
    d.applied + d.undone
  }

  predicate DistinctEntries<G, O>(d: Draft<G, O>) {
    forall i, j | 0 <= i < j < |AllEntries(d)| :: AllEntries(d)[i].id != AllEntries(d)[j].id
  }

  function RowOf<G, O>(draftId: Id, e: Entry<G, O>, number: int, undone: bool): OpRow<G, O> {
    OpRow(draftId, e.operation, e.before, number, undone)
  }

  /** The rows of this draft are exactly those of the given value. */
  ghost predicate Stored<G, O>(db: Db<G, O>, draftId: Id, d: Draft<G, O>) {
    && draftId in db.drafts && db.drafts[draftId] == DraftRow(d.owner, d.revision, d.geometry, d.state)
    && DistinctEntries(d)
    && (forall k | 0 <= k < |AllEntries(d)| :: AllEntries(d)[k].id in db.ops
          && db.ops[AllEntries(d)[k].id] == RowOf(draftId, AllEntries(d)[k], k, k >= |d.applied|))
    && (forall id | id in db.ops && db.ops[id].draftId == draftId :: HasId(AllEntries(d), id))
  }

  /** A load gives one value only: ORDER BY sequence_number, split by is_undone. */
  lemma StoredIsUnique<G, O>(db: Db<G, O>, draftId: Id, a: Draft<G, O>, b: Draft<G, O>)
    requires Stored(db, draftId, a) && Stored(db, draftId, b)
    ensures a == b
  {
    SameEntries(db, draftId, a, b);
    SameEntries(db, draftId, b, a);
    if |a.applied| < |AllEntries(a)| { SplitAgrees(db, draftId, a, b, |a.applied|); }
    if |b.applied| < |AllEntries(a)| { SplitAgrees(db, draftId, a, b, |b.applied|); }
    assert a.applied == AllEntries(a)[..|a.applied|] && b.applied == AllEntries(b)[..|b.applied|];
    assert a.undone == AllEntries(a)[|a.applied|..] && b.undone == AllEntries(b)[|b.applied|..];
  }

  lemma SplitAgrees<G, O>(db: Db<G, O>, draftId: Id, a: Draft<G, O>, b: Draft<G, O>, k: nat)
    requires Stored(db, draftId, a) && Stored(db, draftId, b) && k < |AllEntries(a)|
    ensures k >= |a.applied| <==> k >= |b.applied|
  {
    SameEntries(db, draftId, a, b);
    assert AllEntries(a)[k] == AllEntries(b)[k];
  }

  lemma SameEntry<G, O>(db: Db<G, O>, draftId: Id, a: Draft<G, O>, b: Draft<G, O>, k: nat)
    requires Stored(db, draftId, a) && Stored(db, draftId, b) && k < |AllEntries(a)|
    ensures k < |AllEntries(b)| && AllEntries(a)[k] == AllEntries(b)[k]
  {
    var id := AllEntries(a)[k].id;
    assert HasId(AllEntries(b), id);
    var m :| 0 <= m < |AllEntries(b)| && AllEntries(b)[m].id == id;
  }

  lemma SameEntries<G, O>(db: Db<G, O>, draftId: Id, a: Draft<G, O>, b: Draft<G, O>)
    requires Stored(db, draftId, a) && Stored(db, draftId, b)
    ensures |AllEntries(a)| <= |AllEntries(b)|
    ensures forall k | 0 <= k < |AllEntries(a)| :: AllEntries(a)[k] == AllEntries(b)[k]
  {
    forall k | 0 <= k < |AllEntries(a)| ensures k < |AllEntries(b)| && AllEntries(a)[k] == AllEntries(b)[k] {
      SameEntry(db, draftId, a, b, k);
    }
    if AllEntries(a) != [] { SameEntry(db, draftId, a, b, |AllEntries(a)| - 1); }
  }

  // ----- update -----

  /** INSERT ... ON CONFLICT (operation_id) DO UPDATE: an existing row keeps its stored data. */
  function Upsert<G, O>(ops: map<Id, OpRow<G, O>>, draftId: Id, e: Entry<G, O>, number: int, undone: bool)
      : map<Id, OpRow<G, O>>
  {
    ops[e.id := if e.id in ops then ops[e.id].(number := number, undone := undone) else RowOf(draftId, e, number, undone)]
  }

  function UpsertAll<G, O>(ops: map<Id, OpRow<G, O>>, draftId: Id, entries: seq<Entry<G, O>>, offset: nat, undone: bool)
      : map<Id, OpRow<G, O>>
    decreases |entries|
  {
    if entries == [] then ops
    else Upsert(UpsertAll(ops, draftId, Front(entries), offset, undone), draftId, Last(entries), offset + |entries| - 1, undone)
  }

  function Flagged<G, O>(ops: map<Id, OpRow<G, O>>, draftId: Id, d: Draft<G, O>): map<Id, OpRow<G, O>> {
    map id | id in ops ::
      if ops[id].draftId == draftId then ops[id].(undone := !HasId(d.applied, id)) else ops[id]
  }

  /** The operation rows before the last statement deletes those in neither stack. */
  function Upserted<G, O>(ops: map<Id, OpRow<G, O>>, draftId: Id, d: Draft<G, O>): map<Id, OpRow<G, O>> {
    UpsertAll(UpsertAll(Flagged(ops, draftId, d), draftId, d.applied, 0, false), draftId, d.undone, |d.applied|, true)
  }

  /** One transaction; the WHERE clause asks for the revision before the draft's last change. */
  function Update<G, O>(db: Db<G, O>, draftId: Id, d: Draft<G, O>): Result<Db<G, O>, DraftError> {
    if draftId !in db.drafts || db.drafts[draftId].revision != d.revision - 1 then Err(RevisionConflict)
    else
      var row := db.drafts[draftId].(revision := d.revision, geometry := d.geometry, state := d.state);
      var ops' := Upserted(db.ops, draftId, d);
      Ok(Db(db.drafts[draftId := row],
            map id | id in ops' && (ops'[id].draftId == draftId ==> HasId(AllEntries(d), id)) :: ops'[id]))
  }

  /** An operation keeps what it was first stored with. */
  function Frozen<G, O>(ops: map<Id, OpRow<G, O>>, e: Entry<G, O>): Entry<G, O> {
    if e.id in ops then Entry(e.id, ops[e.id].operation, ops[e.id].before) else e
  }

  function FrozenAll<G, O>(ops: map<Id, OpRow<G, O>>, entries: seq<Entry<G, O>>): seq<Entry<G, O>> {
    seq(|entries|, k requires 0 <= k < |entries| => Frozen(ops, entries[k]))
  }

  function Persisted<G, O>(ops: map<Id, OpRow<G, O>>, d: Draft<G, O>): Draft<G, O> {
    d.(applied := FrozenAll(ops, d.applied), undone := FrozenAll(ops, d.undone))
  }

  /** Entries already stored belong to this draft. */
  predicate OwnEntries<G, O>(ops: map<Id, OpRow<G, O>>, draftId: Id, entries: seq<Entry<G, O>>) {
    forall e | 0 <= e < |entries| && entries[e].id in ops :: ops[entries[e].id].draftId == draftId
  }

  lemma {:induction false} UpsertAllAt<G, O>(ops: map<Id, OpRow<G, O>>, draftId: Id, entries: seq<Entry<G, O>>,
                                             offset: nat, undone: bool, id: Id)
    requires forall i, j | 0 <= i < j < |entries| :: entries[i].id != entries[j].id
    ensures var r := UpsertAll(ops, draftId, entries, offset, undone);
            && (id in r <==> id in ops || HasId(entries, id))
            && (!HasId(entries, id) && id in ops ==> r[id] == ops[id])
            && (forall k | 0 <= k < |entries| && entries[k].id == id ::
                  r[id] == if id in ops then ops[id].(number := offset + k, undone := undone)
                           else RowOf(draftId, entries[k], offset + k, undone))
    decreases |entries|
  {
    if entries != [] {
      UpsertAllAt(ops, draftId, Front(entries), offset, undone, id);
      assert HasId(entries, id) <==> HasId(Front(entries), id) || Last(entries).id == id by {
        if HasId(entries, id) {
          var k :| 0 <= k < |entries| && entries[k].id == id;
          assert k < |Front(entries)| ==> Front(entries)[k].id == id;
        }
        if HasId(Front(entries), id) {
          var k :| 0 <= k < |Front(entries)| && Front(entries)[k].id == id;
          assert entries[k].id == id;
        }
      }
    }
  }

  lemma StackSplit<G, O>(d: Draft<G, O>, k: nat)
    requires DistinctEntries(d) && k < |AllEntries(d)|
    ensures var e := AllEntries(d)[k];
            && (k < |d.applied| ==> d.applied[k] == e && !HasId(d.undone, e.id))
            && (k >= |d.applied| ==> d.undone[k - |d.applied|] == e && !HasId(d.applied, e.id))
  {
    forall j | 0 <= j < |d.undone| ensures d.undone[j] == AllEntries(d)[|d.applied| + j] {}
    forall i | 0 <= i < |d.applied| ensures d.applied[i] == AllEntries(d)[i] {}
  }

  lemma StacksAreDistinct<G, O>(d: Draft<G, O>)
    requires DistinctEntries(d)
    ensures forall i, j | 0 <= i < j < |d.applied| :: d.applied[i].id != d.applied[j].id
    ensures forall i, j | 0 <= i < j < |d.undone| :: d.undone[i].id != d.undone[j].id
  {
    forall i | 0 <= i < |d.applied| ensures d.applied[i] == AllEntries(d)[i] {}
    forall i, j | 0 <= i < j < |d.undone| ensures d.undone[i].id != d.undone[j].id {
      assert AllEntries(d)[|d.applied| + i] == d.undone[i] && AllEntries(d)[|d.applied| + j] == d.undone[j];
    }
  }

  lemma UpsertedRow<G, O>(ops: map<Id, OpRow<G, O>>, draftId: Id, d: Draft<G, O>, k: nat)
    requires DistinctEntries(d) && OwnEntries(ops, draftId, AllEntries(d)) && k < |AllEntries(d)|
    ensures var e := AllEntries(d)[k]; var r := Upserted(ops, draftId, d);
            e.id in r && r[e.id] == RowOf(draftId, Frozen(ops, e), k, k >= |d.applied|)
  {
    var e, flagged := AllEntries(d)[k], Flagged(ops, draftId, d);
    StackSplit(d, k);
    StacksAreDistinct(d);
    UpsertAllAt(flagged, draftId, d.applied, 0, false, e.id);
    UpsertAllAt(UpsertAll(flagged, draftId, d.applied, 0, false), draftId, d.undone, |d.applied|, true, e.id);
  }

  /** The write goes through exactly at the revision before the draft's, and then no other draft's columns change. */
  lemma WriteIsGuarded<G, O>(db: Db<G, O>, draftId: Id, d: Draft<G, O>)
    ensures if draftId in db.drafts && db.drafts[draftId].revision + 1 == d.revision then
              && Update(db, draftId, d).Ok?
              && Update(db, draftId, d).value.drafts
                 == db.drafts[draftId := DraftRow(db.drafts[draftId].owner, d.revision, d.geometry, d.state)]
            else Update(db, draftId, d) == Err(RevisionConflict)
  {
  }

  /** What an update writes is the draft, except that known operations keep what they were first stored with. */
  lemma UpdateStoresPersisted<G, O>(db: Db<G, O>, draftId: Id, d: Draft<G, O>)
    requires draftId in db.drafts && db.drafts[draftId].owner == d.owner
    requires db.drafts[draftId].revision == d.revision - 1
    requires DistinctEntries(d) && OwnEntries(db.ops, draftId, AllEntries(d))
    ensures Update(db, draftId, d).Ok? && Stored(Update(db, draftId, d).value, draftId, Persisted(db.ops, d))
  {
    var p, db' := Persisted(db.ops, d), Update(db, draftId, d).value;
    assert |AllEntries(p)| == |AllEntries(d)|;
    forall k | 0 <= k < |AllEntries(d)|
      ensures AllEntries(p)[k] == Frozen(db.ops, AllEntries(d)[k])
      ensures AllEntries(p)[k].id == AllEntries(d)[k].id
    {
    }
    forall k | 0 <= k < |AllEntries(p)|
      ensures AllEntries(p)[k].id in db'.ops
      ensures db'.ops[AllEntries(p)[k].id] == RowOf(draftId, AllEntries(p)[k], k, k >= |p.applied|)
    {
      UpsertedRow(db.ops, draftId, d, k);
      assert HasId(AllEntries(d), AllEntries(d)[k].id);
    }
    forall id | id in db'.ops && db'.ops[id].draftId == draftId ensures HasId(AllEntries(p), id) {
      var k :| 0 <= k < |AllEntries(d)| && AllEntries(d)[k].id == id;
      assert AllEntries(p)[k].id == id;
    }
  }

  // ----- a request against the stored draft -----

  /**
   The stacks of `n` hold the ids of entries of `d`, the one at `k` coming from `at(k)`, with anything else;
   those of `t` hold the entries of `d` themselves.
   */
  ghost predicate Rearranges<G, O>(d: Draft<G, O>, n: Draft<G, O>, t: Draft<G, O>, at: int -> int) {
    && t == n.(applied := t.applied, undone := t.undone)
    && |t.applied| == |n.applied| && |t.undone| == |n.undone|
    && (forall k | 0 <= k < |AllEntries(n)| :: 0 <= at(k) < |AllEntries(d)| && AllEntries(t)[k] == AllEntries(d)[at(k)])
    && (forall k | 0 <= k < |AllEntries(n)| :: AllEntries(n)[k].id == AllEntries(t)[k].id)
    && (forall i, j | 0 <= i < j < |AllEntries(n)| :: at(i) != at(j))
  }

  lemma RearrangedEntry<G, O>(db: Db<G, O>, draftId: Id, d: Draft<G, O>, n: Draft<G, O>, t: Draft<G, O>,
                              at: int -> int, k: nat)
    requires Stored(db, draftId, d) && Rearranges(d, n, t, at) && k < |AllEntries(n)|
    ensures var e := AllEntries(n)[k];
            && e.id in db.ops && db.ops[e.id].draftId == draftId
            && Frozen(db.ops, e) == AllEntries(t)[k]
  {
    assert AllEntries(n)[k].id == AllEntries(t)[k].id;
    var e := AllEntries(d)[at(k)];
    assert db.ops[e.id] == RowOf(draftId, e, at(k), at(k) >= |d.applied|);
  }

  lemma RearrangedIsDistinct<G, O>(d: Draft<G, O>, n: Draft<G, O>, t: Draft<G, O>, at: int -> int)
    requires DistinctEntries(d) && Rearranges(d, n, t, at)
    ensures DistinctEntries(n)
  {
    forall i, j | 0 <= i < j < |AllEntries(n)| ensures AllEntries(n)[i].id != AllEntries(n)[j].id {
      assert AllEntries(n)[i].id == AllEntries(t)[i].id && AllEntries(n)[j].id == AllEntries(t)[j].id;
    }
  }

  lemma PersistedIs<G, O>(ops: map<Id, OpRow<G, O>>, n: Draft<G, O>, t: Draft<G, O>)
    requires t == n.(applied := t.applied, undone := t.undone)
    requires |t.applied| == |n.applied| && |t.undone| == |n.undone|
    requires forall k | 0 <= k < |AllEntries(n)| :: Frozen(ops, AllEntries(n)[k]) == AllEntries(t)[k]
    ensures Persisted(ops, n) == t
  {
    var p := Persisted(ops, n);
    forall i | 0 <= i < |n.applied| ensures p.applied[i] == t.applied[i] {
      assert Frozen(ops, AllEntries(n)[i]) == AllEntries(t)[i];
    }
    forall j | 0 <= j < |n.undone| ensures p.undone[j] == t.undone[j] {
      assert Frozen(ops, AllEntries(n)[|n.applied| + j]) == AllEntries(t)[|n.applied| + j];
    }
  }

  /** Writing `n` succeeds, and what is loaded afterwards is `t`. */
  ghost predicate WellStored<G, O>(db: Db<G, O>, draftId: Id, n: Draft<G, O>, t: Draft<G, O>) {
    && DistinctEntries(n) && OwnEntries(db.ops, draftId, AllEntries(n))
    && Update(db, draftId, n).Ok? && Stored(Update(db, draftId, n).value, draftId, t)
  }

  /** Whatever the rearranged entries carry, they are stored with what they had. */
  lemma RearrangedIsStored<G, O>(db: Db<G, O>, draftId: Id, d: Draft<G, O>, n: Draft<G, O>, t: Draft<G, O>,
                                 at: int -> int)
    requires Stored(db, draftId, d) && Rearranges(d, n, t, at) && n.owner == d.owner && n.revision == d.revision + 1
    ensures WellStored(db, draftId, n, t)
  {
    RearrangedIsDistinct(d, n, t, at);
    forall k | 0 <= k < |AllEntries(n)|
      ensures Frozen(db.ops, AllEntries(n)[k]) == AllEntries(t)[k]
      ensures db.ops[AllEntries(n)[k].id].draftId == draftId
    {
      RearrangedEntry(db, draftId, d, n, t, at, k);
    }
    PersistedIs(db.ops, n, t);
    UpdateStoresPersisted(db, draftId, n);
  }

  /** Where an entry stood before the one at index `from` went to the end. */
  function Back(from: int, n: int, k: int): int {
    if k < from then k else if k == n - 1 then from else k + 1
  }

  /** Where an entry stood before the last one moved to index `to`. */
  function Forth(to: int, n: int, k: int): int {
    if k < to then k else if k == to then n - 1 else k - 1
  }

  lemma UndoRearranges<G, O>(d: Draft<G, O>, exec: (G, O) -> Option<G>, valid: G -> bool)
    requires d.state == Active && d.applied != []
    ensures Rearranges(d, Step(d, UndoOp(d.revision), exec, valid), StepIn(Postgres, d, UndoOp(d.revision), exec, valid),
                       k => Back(|d.applied| - 1, |AllEntries(d)|, k))
  {
  }

  lemma RedoRearranges<G, O>(d: Draft<G, O>, exec: (G, O) -> Option<G>, valid: G -> bool)
    requires d.state == Active && d.undone != []
    ensures Rearranges(d, Step(d, RedoOp(d.revision), exec, valid), StepIn(Postgres, d, RedoOp(d.revision), exec, valid),
                       k => Forth(|d.applied|, |AllEntries(d)|, k))
  {
  }

  /** The index of an undone operation among all entries. */
  ghost function UndonePlace<G, O>(d: Draft<G, O>, id: Id): (i: int)
    requires HasId(d.undone, id)
    ensures |d.applied| <= i < |AllEntries(d)| && AllEntries(d)[i] == EntryWith(d.undone, id)
  {
    var j :| 0 <= j < |d.undone| && d.undone[j] == EntryWith(d.undone, id);
    |d.applied| + j
  }

  lemma ReapplyRearranges<G, O>(d: Draft<G, O>, a: Action<G, O>, exec: (G, O) -> Option<G>, valid: G -> bool)
    requires a.ApplyOp? && HasId(d.undone, a.id) && Succeeds(d, a, exec, valid)
    ensures var place := UndonePlace(d, a.id);
            Rearranges(d, Step(d, a, exec, valid), StepIn(Postgres, d, a, exec, valid),
                       k => if k < |d.applied| then k else place)
  {
    var n, t := Step(d, a, exec, valid), StepIn(Postgres, d, a, exec, valid);
    assert AllEntries(n) == n.applied && AllEntries(t) == t.applied;
    assert forall k | 0 <= k < |d.applied| :: AllEntries(d)[k] == d.applied[k];
  }

  lemma ApplyIsStored<G, O>(db: Db<G, O>, draftId: Id, d: Draft<G, O>, a: Action<G, O>, exec: (G, O) -> Option<G>,
                            valid: G -> bool)
    requires Stored(db, draftId, d) && a.ApplyOp? && a.id !in db.ops && Succeeds(d, a, exec, valid)
    requires !HasId(d.undone, a.id)
    ensures WellStored(db, draftId, Step(d, a, exec, valid), StepIn(Postgres, d, a, exec, valid))
  {
    var n := Step(d, a, exec, valid);
    forall k | 0 <= k < |AllEntries(n)| ensures Frozen(db.ops, AllEntries(n)[k]) == AllEntries(n)[k] {
      if k < |d.applied| { assert AllEntries(n)[k] == AllEntries(d)[k]; }
    }
    assert forall k | 0 <= k < |d.applied| :: AllEntries(n)[k] == AllEntries(d)[k];
    PersistedIs(db.ops, n, n);
    UpdateStoresPersisted(db, draftId, n);
  }

  lemma ResetIsStored<G, O>(db: Db<G, O>, draftId: Id, d: Draft<G, O>, a: Action<G, O>, exec: (G, O) -> Option<G>,
                            valid: G -> bool)
    requires Stored(db, draftId, d) && a.ResetOp? && Succeeds(d, a, exec, valid)
    ensures WellStored(db, draftId, Step(d, a, exec, valid), StepIn(Postgres, d, a, exec, valid))
  {
    var n := Step(d, a, exec, valid);
    PersistedIs(db.ops, n, n);
    UpdateStoresPersisted(db, draftId, n);
  }

  /** Writing one draft leaves what every other draft loads as it was. */
  lemma OtherStaysStored<G, O>(db: Db<G, O>, draftId: Id, n: Draft<G, O>, other: Id, o: Draft<G, O>)
    requires Stored(db, other, o) && other != draftId
    requires DistinctEntries(n) && OwnEntries(db.ops, draftId, AllEntries(n)) && Update(db, draftId, n).Ok?
    ensures Stored(Update(db, draftId, n).value, other, o)
  {
    var db' := Update(db, draftId, n).value;
    forall id ensures id in db.ops && db.ops[id].draftId == other ==> id in db'.ops && db'.ops[id] == db.ops[id]
              ensures id in db'.ops && db'.ops[id].draftId == other ==> id in db.ops && db.ops[id] == db'.ops[id]
    {
      RowAfter(db.ops, draftId, n, id);
    }
  }

  lemma EitherStack<G, O>(d: Draft<G, O>, id: Id)
    ensures HasId(AllEntries(d), id) <==> HasId(d.applied, id) || HasId(d.undone, id)
  {
    forall i | 0 <= i < |d.applied| ensures AllEntries(d)[i] == d.applied[i] {}
    forall j | 0 <= j < |d.undone| ensures AllEntries(d)[|d.applied| + j] == d.undone[j] {}
  }

  /** Only rows of operations on the stacks are rewritten; other drafts' rows keep everything. */
  lemma RowAfter<G, O>(ops: map<Id, OpRow<G, O>>, draftId: Id, d: Draft<G, O>, id: Id)
    requires DistinctEntries(d) && OwnEntries(ops, draftId, AllEntries(d))
    ensures var r := Upserted(ops, draftId, d);
            if HasId(AllEntries(d), id) then id in r && r[id].draftId == draftId && (id in ops ==> ops[id].draftId == draftId)
            else (id in r <==> id in ops)
                 && (id in ops ==> r[id].draftId == ops[id].draftId && (ops[id].draftId != draftId ==> r[id] == ops[id]))
  {
    if HasId(AllEntries(d), id) {
      var k :| 0 <= k < |AllEntries(d)| && AllEntries(d)[k].id == id;
      UpsertedRow(ops, draftId, d, k);
    } else {
      StacksAreDistinct(d);
      EitherStack(d, id);
      var flagged := Flagged(ops, draftId, d);
      UpsertAllAt(flagged, draftId, d.applied, 0, false, id);
      UpsertAllAt(UpsertAll(flagged, draftId, d.applied, 0, false), draftId, d.undone, |d.applied|, true, id);
    }
  }

  /** An operation that is applied is not stored for another draft. */
  predicate OwnOperation<G, O>(db: Db<G, O>, draftId: Id, a: Action<G, O>) {
    a.ApplyOp? && a.id in db.ops ==> db.ops[a.id].draftId == draftId
  }

  lemma OperationIsUndone<G, O>(db: Db<G, O>, draftId: Id, d: Draft<G, O>, id: Id)
    requires Stored(db, draftId, d) && !HasId(d.applied, id)
    ensures id in db.ops && db.ops[id].draftId == draftId <==> HasId(d.undone, id)
  {
    EitherStack(d, id);
  }

  lemma SuccessIsWellStored<G, O>(db: Db<G, O>, draftId: Id, d: Draft<G, O>, a: Action<G, O>,
                                  exec: (G, O) -> Option<G>, valid: G -> bool)
    requires Stored(db, draftId, d) && Succeeds(d, a, exec, valid) && OwnOperation(db, draftId, a)
    ensures WellStored(db, draftId, Step(d, a, exec, valid), StepIn(Postgres, d, a, exec, valid))
  {
    var n, t := Step(d, a, exec, valid), StepIn(Postgres, d, a, exec, valid);
    match a {
      case ApplyOp(id, _, _) =>
        OperationIsUndone(db, draftId, d, id);
        if HasId(d.undone, id) {
          ReapplyRearranges(d, a, exec, valid);
          var place := UndonePlace(d, id);
          RearrangedIsStored(db, draftId, d, n, t, k => if k < |d.applied| then k else place);
        } else {
          ApplyIsStored(db, draftId, d, a, exec, valid);
        }
      case UndoOp(_) =>
        UndoRearranges(d, exec, valid);
        RearrangedIsStored(db, draftId, d, n, t, k => Back(|d.applied| - 1, |AllEntries(d)|, k));
      case RedoOp(_) =>
        RedoRearranges(d, exec, valid);
        RearrangedIsStored(db, draftId, d, n, t, k => Forth(|d.applied|, |AllEntries(d)|, k));
      case ResetOp(_, _) => ResetIsStored(db, draftId, d, a, exec, valid);
    }
  }

  /**
   A successful request writes a draft the next load of which is the Postgres step of the draft it had loaded,
   and no other draft's load changes.
   */
  lemma SuccessIsStored<G, O>(db: Db<G, O>, draftId: Id, d: Draft<G, O>, a: Action<G, O>, exec: (G, O) -> Option<G>,
                              valid: G -> bool, other: Id, o: Draft<G, O>)
    requires Stored(db, draftId, d) && Succeeds(d, a, exec, valid) && OwnOperation(db, draftId, a)
    ensures var r := Update(db, draftId, Step(d, a, exec, valid));
            && r.Ok? && Stored(r.value, draftId, StepIn(Postgres, d, a, exec, valid))
            && (other != draftId && Stored(db, other, o) ==> Stored(r.value, other, o))
  {
    SuccessIsWellStored(db, draftId, d, a, exec, valid);
    if other != draftId && Stored(db, other, o) { OtherStaysStored(db, draftId, Step(d, a, exec, valid), other, o); }
  }

  /** No operation row is left without its draft. */
  lemma RowsKeepDraft<G, O>(db: Db<G, O>, draftId: Id, d: Draft<G, O>, a: Action<G, O>, exec: (G, O) -> Option<G>,
                            valid: G -> bool)
    requires Stored(db, draftId, d) && Succeeds(d, a, exec, valid) && OwnOperation(db, draftId, a)
    requires forall op | op in db.ops :: db.ops[op].draftId in db.drafts
    ensures var r := Update(db, draftId, Step(d, a, exec, valid));
            r.Ok? && r.value.drafts.Keys == db.drafts.Keys
            && forall op | op in r.value.ops :: r.value.ops[op].draftId in r.value.drafts
  {
    SuccessIsWellStored(db, draftId, d, a, exec, valid);
    var n := Step(d, a, exec, valid);
    var db' := Update(db, draftId, n).value;
    forall op | op in db'.ops ensures db'.ops[op].draftId in db'.drafts {
      RowAfter(db.ops, draftId, n, op);
    }
  }

  /** The revision counts the requests that succeeded. */
  lemma {:induction false} RevisionCountsSuccesses<G, O>(d: Draft<G, O>, actions: seq<Action<G, O>>,
                                                         exec: (G, O) -> Option<G>, valid: G -> bool)
    ensures var t := Run(Postgres, d, actions, exec, valid);
            t.revision >= d.revision && (t.revision == d.revision <==> t == d)
    decreases |actions|
  {
    if actions != [] { RevisionCountsSuccesses(d, Front(actions), exec, valid); }
  }

  /**
   A write computed from a draft read earlier goes through only onto exactly that draft: if any request succeeded
   in between it is a revision conflict, and nothing is overwritten.
   */
  lemma StaleWriteConflicts<G, O>(db: Db<G, O>, draftId: Id, read: Draft<G, O>, between: seq<Action<G, O>>,
                                  a: Action<G, O>, exec: (G, O) -> Option<G>, valid: G -> bool)
    requires Stored(db, draftId, Run(Postgres, read, between, exec, valid)) && Succeeds(read, a, exec, valid)
    ensures Update(db, draftId, Step(read, a, exec, valid)).Ok? <==> Stored(db, draftId, read)
  {
    RevisionCountsSuccesses(read, between, exec, valid);
  }

  /** A request sent again with the revision it succeeded at is a conflict, whatever happened in between. */
  lemma RetryConflicts<G, O>(d: Draft<G, O>, a: Action<G, O>, between: seq<Action<G, O>>, retry: Action<G, O>,
                             exec: (G, O) -> Option<G>, valid: G -> bool)
    requires Succeeds(d, a, exec, valid) && retry.expected == a.expected
    ensures var t := Run(Postgres, StepIn(Postgres, d, a, exec, valid), between, exec, valid);
            && t.state == Active && t.revision > retry.expected
            && Perform(t, retry, exec, valid) == Err(RevisionConflict) && StepIn(Postgres, t, retry, exec, valid) == t
  {
    RevisionCountsSuccesses(StepIn(Postgres, d, a, exec, valid), between, exec, valid);
    StateIsKept(StepIn(Postgres, d, a, exec, valid), between, exec, valid);
  }

  lemma {:induction false} StateIsKept<G, O>(d: Draft<G, O>, actions: seq<Action<G, O>>, exec: (G, O) -> Option<G>,
                                             valid: G -> bool)
    ensures Run(Postgres, d, actions, exec, valid).state == d.state
    decreases |actions|
  {
    if actions != [] { StateIsKept(d, Front(actions), exec, valid); }
  }

  /** Discarding changes the state but not the revision, so the write never matches the stored row. */
  lemma DiscardIsNeverStored<G, O>(db: Db<G, O>, draftId: Id, d: Draft<G, O>)
    requires Stored(db, draftId, d)
    ensures Update(db, draftId, d.(state := Discarded)) == Err(RevisionConflict)
  {
  }
}
