/** The draft requests of the API, each one a load, a change and a guarded write. */
module RouteService {
  import opened Common
  import opened RouteDraft
  import opened RouteReplay
  import opened RouteRows

  datatype Answer = Answer(draftId: Id, revision: nat, canUndo: bool, canRedo: bool)

  datatype RequestError =
    | NotFound | Rejected(reason: DraftError) | PayloadMismatch | NoBaseRouteVersion | BaseUnavailable
    | InvalidKey | InvalidOperation | Overflow

  function AnswerFor<G, O>(draftId: Id, d: Draft<G, O>): Answer {
    Answer(draftId, d.revision, d.applied != [], d.undone != [])
  }

  /**
   The answer for a stored operation.  If it is applied the revision never exceeds the one it once produced, and is
   that one exactly when nothing was undone or reset before it; if it is undone the draft is described as it is.
   */
  ghost predicate AnswersReplay<G, O>(h: History<G, O>, id: Id, row: OpRow<G, O>, incoming: Result<O, RequestError>,
                                      r: Result<Answer, RequestError>)
  {
    if !HasId(h.draft.applied, id) then
      && HasId(h.draft.undone, id)
      && r == Ok(Answer(row.draftId, h.draft.revision, |h.draft.applied| > 0, |h.draft.undone| > 0))
    else if incoming.Err? then r == Err(incoming.error)
    else if row.operation != incoming.value then r == Err(PayloadMismatch)
    else
      && r.Ok? && r.value.draftId == row.draftId && r.value.canUndo && !r.value.canRedo
      && id in h.born && id in h.quiet
      && (exists i :: 0 <= i < |h.draft.applied| && h.draft.applied[i].id == id && r.value.revision == i + 1)
      && 1 <= r.value.revision <= h.born[id] && (r.value.revision == h.born[id] <==> h.quiet[id])
  }

  /** What a request that changes a draft answers. */
  ghost function Outcome<G, O>(past: map<Id, History<G, O>>, draftId: Id, actor: Id, a: Action<G, O>,
                               exec: (G, O) -> Option<G>, valid: G -> bool): Result<Answer, RequestError>
  {
    if draftId !in past || past[draftId].draft.owner != actor then Err(NotFound)
    else match Perform(past[draftId].draft, a, exec, valid)
      case Err(e) => Err(Rejected(e))
      case Ok(n) => Ok(AnswerFor(draftId, n))
  }

  /** The caller's own draft, active, at the revision the caller expects. */
  ghost predicate Admits<G, O>(past: map<Id, History<G, O>>, draftId: Id, actor: Id, expected: nat) {
    draftId in past && var d := past[draftId].draft; d.owner == actor && d.state == Active && d.revision == expected
  }

  /** Why a request is refused before its operation is looked at; a stale revision is a conflict. */
  ghost function Refusal<G, O>(past: map<Id, History<G, O>>, draftId: Id, actor: Id): RequestError {
    if draftId !in past || past[draftId].draft.owner != actor then NotFound
    else if past[draftId].draft.state != Active then Rejected(DraftNotActive)
    else Rejected(RevisionConflict)
  }

  /** One draft is replaced, and nothing else. */
  ghost predicate Becomes<G, O>(past: map<Id, History<G, O>>, past': map<Id, History<G, O>>, draftId: Id, d: Draft<G, O>) {
    past'.Keys == past.Keys && draftId in past' && past'[draftId].draft == d
    && forall id | id in past && id != draftId :: past'[id] == past[id]
  }

  /** The draft's history grows by a request that succeeded. */
  ghost function PastAfter<G, O>(past: map<Id, History<G, O>>, draftId: Id, a: Action<G, O>, ok: bool,
                                 exec: (G, O) -> Option<G>, valid: G -> bool): map<Id, History<G, O>>
  {
    if ok && draftId in past then past[draftId := Record(Postgres, past[draftId], a, exec, valid)] else past
  }

  /** How a draft began, and the requests that succeeded on it. */
  datatype Journal<G, O> = Journal(owner: Id, base: G, actions: seq<Action<G, O>>) {
    function Start(): Draft<G, O> {
      NewDraft(owner, base)
    }
  }

  ghost predicate FromJournal<G, O>(h: History<G, O>, j: Journal<G, O>, exec: (G, O) -> Option<G>, valid: G -> bool) {
    && h == RecordAll(Postgres, RouteReplay.Start(j.owner, j.base), j.actions, exec, valid)
    && h.draft == Run(Postgres, j.Start(), j.actions, exec, valid)
    && NoReapply(j.Start(), j.actions, exec, valid)
  }

  lemma JournalGrows<G, O>(h: History<G, O>, j: Journal<G, O>, a: Action<G, O>, exec: (G, O) -> Option<G>, valid: G -> bool)
    requires FromJournal(h, j, exec, valid) && Succeeds(h.draft, a, exec, valid)
    requires a.ApplyOp? ==> !HasId(h.draft.undone, a.id)
    ensures FromJournal(Record(Postgres, h, a, exec, valid), j.(actions := j.actions + [a]), exec, valid)
  {
    assert Front(j.actions + [a]) == j.actions;
  }

  ghost function JournalsAfter<G, O>(journals: map<Id, Journal<G, O>>, draftId: Id, a: Action<G, O>, ok: bool)
      : map<Id, Journal<G, O>>
  {
    if ok && draftId in journals
    then journals[draftId := journals[draftId].(actions := journals[draftId].actions + [a])] else journals
  }

  // ----- loading -----

  /** The operations still to be read after `k` of them. */
  ghost function EntryIds<G, O>(d: Draft<G, O>, k: nat): set<Id> {
    set j | k <= j < |AllEntries(d)| :: AllEntries(d)[j].id
  }

  ghost function AppliedUpTo<G, O>(d: Draft<G, O>, k: nat): seq<Entry<G, O>> {
    if k <= |d.applied| then d.applied[..k] else d.applied
  }

  ghost function UndoneUpTo<G, O>(d: Draft<G, O>, k: nat): seq<Entry<G, O>>
    requires k <= |AllEntries(d)|
  {
    if k <= |d.applied| then [] else d.undone[..k - |d.applied|]
  }

  lemma RowsToRead<G, O>(db: Db<G, O>, draftId: Id, d: Draft<G, O>)
    requires Stored(db, draftId, d)
    ensures (set op | op in db.ops && db.ops[op].draftId == draftId) == EntryIds(d, 0)
  {
    forall op | op in db.ops && db.ops[op].draftId == draftId ensures op in EntryIds(d, 0) {
      assert HasId(AllEntries(d), op);
    }
  }

  lemma EntryRow<G, O>(db: Db<G, O>, draftId: Id, d: Draft<G, O>, k: nat)
    requires Stored(db, draftId, d) && k < |AllEntries(d)|
    ensures var e := AllEntries(d)[k]; e.id in db.ops && db.ops[e.id] == RowOf(draftId, e, k, k >= |d.applied|)
  {
  }

  lemma LowestExists<G, O>(db: Db<G, O>, draftId: Id, d: Draft<G, O>, k: nat)
    requires Stored(db, draftId, d) && EntryIds(d, k) != {}
    ensures forall o | o in EntryIds(d, k) :: o in db.ops
    ensures exists id :: id in EntryIds(d, k) && forall o | o in EntryIds(d, k) :: db.ops[id].number <= db.ops[o].number
  {
    hide Stored;
    forall o | o in EntryIds(d, k) ensures o in db.ops && db.ops[o].number >= k {
      var j :| k <= j < |AllEntries(d)| && AllEntries(d)[j].id == o;
      EntryRow(db, draftId, d, j);
    }
    assert k < |AllEntries(d)|;
    EntryRow(db, draftId, d, k);
    assert AllEntries(d)[k].id in EntryIds(d, k);
  }

  lemma DistinctTail<G, O>(db: Db<G, O>, draftId: Id, d: Draft<G, O>, k: nat)
    requires Stored(db, draftId, d) && k < |AllEntries(d)|
    ensures EntryIds(d, k) - {AllEntries(d)[k].id} == EntryIds(d, k + 1)
  {
  }

  /** The row with the lowest sequence number not yet read is that of the next entry. */
  lemma LowestIsNext<G, O>(db: Db<G, O>, draftId: Id, d: Draft<G, O>, k: nat, id: Id)
    requires Stored(db, draftId, d) && k <= |AllEntries(d)| && id in EntryIds(d, k)
    requires forall o | o in EntryIds(d, k) :: o in db.ops
    requires forall o | o in EntryIds(d, k) :: db.ops[id].number <= db.ops[o].number
    ensures k < |AllEntries(d)| && EntryIds(d, k) - {id} == EntryIds(d, k + 1)
    ensures var row := db.ops[id]; var e := Entry(id, row.operation, row.before);
            && AppliedUpTo(d, k + 1) == AppliedUpTo(d, k) + (if row.undone then [] else [e])
            && UndoneUpTo(d, k + 1) == UndoneUpTo(d, k) + (if row.undone then [e] else [])
  {
    hide Stored;
    var j :| k <= j < |AllEntries(d)| && id == AllEntries(d)[j].id;
    assert AllEntries(d)[k].id in EntryIds(d, k);
    EntryRow(db, draftId, d, k);
    EntryRow(db, draftId, d, j);
    DistinctTail(db, draftId, d, k);
    assert AllEntries(d)[k] == if k < |d.applied| then d.applied[k] else d.undone[k - |d.applied|];
  }

  lemma AllRead<G, O>(db: Db<G, O>, draftId: Id, d: Draft<G, O>, k: nat)
    requires Stored(db, draftId, d) && k <= |AllEntries(d)| && EntryIds(d, k) == {}
    ensures draftId in db.drafts
    ensures var row := db.drafts[draftId];
            d == Draft(row.owner, row.revision, row.geometry, AppliedUpTo(d, k), UndoneUpTo(d, k), row.state)
  {
    assert k < |AllEntries(d)| ==> AllEntries(d)[k].id in EntryIds(d, k);
  }

  // ----- requests -----

  /** Every draft loads as the outcome of the requests that succeeded on it, and no row is left without its draft. */
  ghost predicate Sane<G, O>(db: Db<G, O>, past: map<Id, History<G, O>>) {
    && db.drafts.Keys == past.Keys
    && (forall id | id in past :: Stored(db, id, past[id].draft) && Dated(past[id]))
    && (forall op | op in db.ops :: db.ops[op].draftId in db.drafts)
  }

  /** A stored draft takes an operation with an id of its own as new. */
  lemma NewOperationSucceeds<G, O>(db: Db<G, O>, draftId: Id, d: Draft<G, O>, a: Action<G, O>,
                                   exec: (G, O) -> Option<G>, valid: G -> bool)
    requires Stored(db, draftId, d) && Perform(d, a, exec, valid).Ok? && (a.ApplyOp? ==> a.id !in db.ops)
    ensures Succeeds(d, a, exec, valid) && (a.ApplyOp? ==> !HasId(d.undone, a.id))
  {
    forall j | 0 <= j < |d.undone| ensures d.undone[j].id in db.ops {
      assert AllEntries(d)[|d.applied| + j] == d.undone[j];
    }
    forall i | 0 <= i < |d.applied| ensures d.applied[i].id in db.ops {
      assert AllEntries(d)[i].id in db.ops;
    }
  }

  lemma NewIsNotUndone<G, O>(db: Db<G, O>, past: map<Id, History<G, O>>, draftId: Id, id: Id)
    requires Sane(db, past) && draftId in past && id !in db.ops
    ensures !HasId(past[draftId].draft.undone, id) && !HasId(past[draftId].draft.applied, id)
  {
    OperationIsKnown(db, draftId, past[draftId].draft, id);
  }

  lemma OperationIsKnown<G, O>(db: Db<G, O>, draftId: Id, d: Draft<G, O>, id: Id)
    requires Stored(db, draftId, d) && id !in db.ops
    ensures !HasId(d.undone, id) && !HasId(d.applied, id)
  {
    forall j | 0 <= j < |d.undone| ensures d.undone[j].id in db.ops {
      assert AllEntries(d)[|d.applied| + j] == d.undone[j];
    }
    forall i | 0 <= i < |d.applied| ensures d.applied[i].id in db.ops { assert AllEntries(d)[i] == d.applied[i]; }
  }

  function WithDraft<G, O>(db: Db<G, O>, draftId: Id, owner: Id, base: G): Db<G, O> {
    db.(drafts := db.drafts[draftId := DraftRow(owner, 0, base, Active)])
  }

  lemma WithDraftKeeps<G, O>(db: Db<G, O>, draftId: Id, owner: Id, base: G, other: Id, o: Draft<G, O>)
    requires Stored(db, other, o) && other != draftId
    ensures Stored(WithDraft(db, draftId, owner, base), other, o)
  {
  }

  lemma WithDraftIsNew<G, O>(db: Db<G, O>, draftId: Id, owner: Id, base: G)
    requires draftId !in db.drafts && forall op | op in db.ops :: db.ops[op].draftId in db.drafts
    ensures Stored(WithDraft(db, draftId, owner, base), draftId, NewDraft(owner, base)) && Dated(Start<G, O>(owner, base))
  {
  }

  lemma CreatedIsSane<G, O>(db: Db<G, O>, past: map<Id, History<G, O>>, draftId: Id, owner: Id, base: G)
    requires Sane(db, past) && draftId !in db.drafts
    ensures Sane(WithDraft(db, draftId, owner, base), past[draftId := Start(owner, base)])
  {
    hide Stored, Dated;
    forall id | id in past ensures Stored(WithDraft(db, draftId, owner, base), id, past[id].draft) {
      WithDraftKeeps(db, draftId, owner, base, id, past[id].draft);
    }
    WithDraftIsNew(db, draftId, owner, base);
  }

  lemma StoredOperation<G, O>(db: Db<G, O>, draftId: Id, d: Draft<G, O>, id: Id)
    requires Stored(db, draftId, d) && id in db.ops && db.ops[id].draftId == draftId
    ensures HasId(d.applied, id) || HasId(d.undone, id)
  {
    EitherStack(d, id);
  }

  lemma AppliedOperation<G, O>(db: Db<G, O>, draftId: Id, h: History<G, O>, i: nat)
    requires Stored(db, draftId, h.draft) && Dated(h) && i < |h.draft.applied|
    ensures var e := h.draft.applied[i]; e.id in db.ops && db.ops[e.id].operation == e.operation && EntryDated(h, e.id, i)
  {
    assert AllEntries(h.draft)[i] == h.draft.applied[i];
  }

  class RouteDraftService<G, O(==)> {
    const exec: (G, O) -> Option<G>
    const valid: G -> bool
    var db: Db<G, O>
    ghost var past: map<Id, History<G, O>>
    ghost var journals: map<Id, Journal<G, O>>

    ghost predicate Valid()
      reads this
    {
      && Sane(db, past) && journals.Keys == past.Keys
      && forall id | id in past :: FromJournal(past[id], journals[id], exec, valid)
    }

    /**
     Whatever the requests were, undoing everything leads back to the base, and the geometry is the replay of the
     applied operations that no redo has lost.
     */
    lemma StoredGeometry(id: Id)
      requires Valid() && id in past
      ensures var j, d := journals[id], past[id].draft;
              var b, marks := RunBase(Postgres, j.base, j.Start(), j.actions, exec, valid),
                              RunMarks(j.Start(), UNMARKED, j.actions, exec, valid);
              && Replay(b, Effective(d.applied, marks.line[..|d.applied|], marks.lag), exec) == Some(d.geometry)
              && var u := Run(Postgres, d, Undos(d.revision, |d.applied|), exec, valid);
                 u.applied == [] && u.geometry == b
    {
      hide Sane, Effective, Replay, RunBase, BottomIsBase;
      var j := journals[id];
      assert FromJournal(past[id], j, exec, valid);
      NewDraftHasBase(j.owner, j.base);
      UndoingAllRestoresBase(j.base, j.Start(), j.actions, exec, valid);
      StoredGeometryIsEffective(j.owner, j.base, j.actions, exec, valid);
    }

    lemma NewDraftHasBase(owner: Id, base: G)
      ensures BottomIsBase(base, NewDraft<G, O>(owner, base))
    {
    }

    constructor (exec: (G, O) -> Option<G>, valid: G -> bool)
      ensures Valid() && past == map[] && journals == map[] && this.exec == exec && this.valid == valid
    {
      this.exec, this.valid := exec, valid;
      db, past, journals := Db(map[], map[]), map[], map[];
    }

    /** The generated id is new. */
    method CreateDraft(draftId: Id, owner: Id, base: G) returns (r: Result<Answer, RequestError>)
      requires Valid() && draftId !in db.drafts
      modifies this
      ensures Valid()
      ensures r == if valid(base) then Ok(Answer(draftId, 0, false, false)) else Err(Rejected(InvalidGeometry))
      ensures past == if valid(base) then old(past)[draftId := Start(owner, base)] else old(past)
      ensures journals == if valid(base) then old(journals)[draftId := Journal(owner, base, [])] else old(journals)
    {
      hide Stored, Dated, Sane;
      if !valid(base) { return Err(Rejected(InvalidGeometry)); }
      CreatedIsSane(db, past, draftId, owner, base);
      var d := NewDraft<G, O>(owner, base);
      db := db.(drafts := db.drafts[draftId := DraftRow(owner, d.revision, d.geometry, d.state)]);
      past, journals := past[draftId := Start(owner, base)], journals[draftId := Journal(owner, base, [])];
      r := Ok(AnswerFor(draftId, d));
    }

    /** Reads the operation rows by sequence number and splits them by their flag. */
    method Load(draftId: Id) returns (loaded: Option<Draft<G, O>>)
      requires Valid()
      ensures loaded == if draftId in past then Some(past[draftId].draft) else None
    {
      hide Dated, Stored, FromJournal;
      if draftId !in db.drafts { return None; }
      ghost var d, k := past[draftId].draft, 0;
      var rest := set op | op in db.ops && db.ops[op].draftId == draftId;
      var applied: seq<Entry<G, O>>, undone: seq<Entry<G, O>> := [], [];
      RowsToRead(db, draftId, d);
      while rest != {}
        invariant 0 <= k <= |AllEntries(d)| && rest == EntryIds(d, k)
        invariant applied == AppliedUpTo(d, k) && undone == UndoneUpTo(d, k)
        decreases |rest|
      {
        LowestExists(db, draftId, d, k);
        var id :| id in rest && forall o | o in rest :: db.ops[id].number <= db.ops[o].number;
        LowestIsNext(db, draftId, d, k, id);
        var row := db.ops[id];
        if row.undone {
          undone := undone + [Entry(id, row.operation, row.before)];
        } else {
          applied := applied + [Entry(id, row.operation, row.before)];
        }
        rest, k := rest - {id}, k + 1;
      }
      AllRead(db, draftId, d, k);
      var row := db.drafts[draftId];
      loaded := Some(Draft(row.owner, row.revision, row.geometry, applied, undone, row.state));
    }

    /** The common course of the four requests. */
    method Submit(draftId: Id, actor: Id, a: Action<G, O>) returns (r: Result<Answer, RequestError>)
      requires Valid() && (a.ApplyOp? ==> a.id !in db.ops)
      modifies this
      ensures Valid() && (r.Err? ==> db == old(db))
      ensures a.ApplyOp? && draftId in old(past) ==>
                !HasId(old(past)[draftId].draft.undone, a.id) && !HasId(old(past)[draftId].draft.applied, a.id)
      ensures r == Outcome(old(past), draftId, actor, a, exec, valid)
      ensures past == PastAfter(old(past), draftId, a, r.Ok?, exec, valid)
      ensures journals == JournalsAfter(old(journals), draftId, a, r.Ok?)
    {
      hide Sane, Stored, Dated, Update, Record, Perform, StepIn, FromJournal;
      if a.ApplyOp? && draftId in past { NewIsNotUndone(db, past, draftId, a.id); }
      var loaded := Load(draftId);
      if loaded.None? || loaded.value.owner != actor { return Err(NotFound); }
      var d := loaded.value;
      var changed := Perform(d, a, exec, valid);
      if changed.Err? { return Err(Rejected(changed.error)); }
      var written := Update(db, draftId, changed.value);
      Written(draftId, d, a);
      db := written.value;
      past := past[draftId := Record(Postgres, past[draftId], a, exec, valid)];
      journals := JournalsAfter(journals, draftId, a, true);
      r := Ok(AnswerFor(draftId, changed.value));
    }

    lemma Written(draftId: Id, d: Draft<G, O>, a: Action<G, O>)
      requires Valid() && (a.ApplyOp? ==> a.id !in db.ops)
      requires draftId in past && past[draftId].draft == d && Perform(d, a, exec, valid).Ok?
      ensures Update(db, draftId, Step(d, a, exec, valid)).Ok?
      ensures Sane(Update(db, draftId, Step(d, a, exec, valid)).value,
                   past[draftId := Record(Postgres, past[draftId], a, exec, valid)])
      ensures FromJournal(Record(Postgres, past[draftId], a, exec, valid),
                          journals[draftId].(actions := journals[draftId].actions + [a]), exec, valid)
    {
      hide FromJournal, Stored, Dated, Update, Perform, StepIn;
      var past' := past[draftId := Record(Postgres, past[draftId], a, exec, valid)];
      NewOperationSucceeds(db, draftId, d, a, exec, valid);
      assert FromJournal(past[draftId], journals[draftId], exec, valid);
      JournalGrows(past[draftId], journals[draftId], a, exec, valid);
      SuccessIsStored(db, draftId, d, a, exec, valid, draftId, d);
      RecordKeepsDated(Postgres, past[draftId], a, exec, valid);
      RowsKeepDraft(db, draftId, d, a, exec, valid);
      var db' := Update(db, draftId, Step(d, a, exec, valid)).value;
      forall id | id in past' ensures Stored(db', id, past'[id].draft) && Dated(past'[id]) {
        if id != draftId { SuccessIsStored(db, draftId, d, a, exec, valid, id, past[id].draft); }
      }
    }

    /**
     `key` and `incoming` are what reading the idempotency key and converting the operation give; the conversion is
     only looked at where the operation is needed.  A request whose operation id is stored changes nothing.
     */
    method PostApply(draftId: Id, actor: Id, key: Result<Id, RequestError>, incoming: Result<O, RequestError>, expected: nat)
        returns (r: Result<Answer, RequestError>)
      requires Valid()
      modifies this
      ensures Valid()
      ensures key.Err? ==> r == Err(key.error)
      ensures key.Err? || key.value in old(db.ops) || incoming.Err? ==>
                db == old(db) && past == old(past) && journals == old(journals)
      ensures key.Ok? && key.value !in old(db.ops) && incoming.Err? ==>
                r == Err(if draftId in past && past[draftId].draft.owner == actor then incoming.error else NotFound)
      ensures key.Ok? && key.value !in old(db.ops) && incoming.Ok? ==>
                var a := ApplyOp(key.value, incoming.value, expected);
                && r == Outcome(old(past), draftId, actor, a, exec, valid)
                && past == PastAfter(old(past), draftId, a, r.Ok?, exec, valid)
                && journals == JournalsAfter(old(journals), draftId, a, r.Ok?)
      ensures key.Ok? && key.value !in old(db.ops) && incoming.Ok? ==>
                if !Admits(old(past), draftId, actor, expected) then
                  r == Err(Refusal(old(past), draftId, actor)) && db == old(db) && past == old(past) && journals == old(journals)
                else
                  var d := old(past)[draftId].draft;
                  match exec(d.geometry, incoming.value)
                  case None =>
                    r == Err(Rejected(OperationRejected)) && db == old(db) && past == old(past) && journals == old(journals)
                  case Some(g) =>
                    && r == Ok(Answer(draftId, d.revision + 1, true, false))
                    && Becomes(old(past), past, draftId,
                               Draft(actor, d.revision + 1, g,
                                     d.applied + [Entry(key.value, incoming.value, d.geometry)], [], Active))
      ensures key.Ok? && key.value in old(db.ops) ==>
                var id, row := key.value, old(db.ops)[key.value];
                row.draftId in past && AnswersReplay(past[row.draftId], id, row, incoming, r)
    {
      hide Stored, Dated, FromJournal, Sane;
      if key.Err? { return Err(key.error); }
      var id := key.value;
      if id in db.ops {
        r := Replayed(id, incoming);
        return;
      }
      if incoming.Ok? {
        r := Submit(draftId, actor, ApplyOp(id, incoming.value, expected));
      } else {
        var loaded := Load(draftId);
        r := Err(if loaded.None? || loaded.value.owner != actor then NotFound else incoming.error);
      }
    }

    /** The answer for an operation that is stored. */
    method Replayed(id: Id, incoming: Result<O, RequestError>) returns (r: Result<Answer, RequestError>)
      requires Valid() && id in db.ops
      ensures var row := db.ops[id];
              row.draftId in past && AnswersReplay(past[row.draftId], id, row, incoming, r)
    {
      hide Stored, Dated, FromJournal;
      var found := db.ops[id].draftId;
      var loaded := Load(found);
      var d := loaded.value;
      StoredOperation(db, found, d, id);
      var i := 0;
      while i < |d.applied| && d.applied[i].id != id
        invariant 0 <= i <= |d.applied|
        invariant forall k | 0 <= k < i :: d.applied[k].id != id
      {
        i := i + 1;
      }
      if i == |d.applied| { return Ok(AnswerFor(found, d)); }
      AppliedOperation(db, found, past[found], i);
      if incoming.Err? { return Err(incoming.error); }
      if d.applied[i].operation != incoming.value { return Err(PayloadMismatch); }
      r := Ok(Answer(found, ReplayRevision(i), true, false));
    }

    method PostUndo(draftId: Id, actor: Id, expected: nat) returns (r: Result<Answer, RequestError>)
      requires Valid()
      modifies this
      ensures Valid()
      ensures r == Outcome(old(past), draftId, actor, UndoOp(expected), exec, valid)
      ensures past == PastAfter(old(past), draftId, UndoOp(expected), r.Ok?, exec, valid)
      ensures journals == JournalsAfter(old(journals), draftId, UndoOp(expected), r.Ok?)
      ensures if !Admits(old(past), draftId, actor, expected) then
                r == Err(Refusal(old(past), draftId, actor)) && db == old(db) && past == old(past) && journals == old(journals)
              else
                var d := old(past)[draftId].draft;
                if d.applied == [] then
                  r == Err(Rejected(NothingToUndo)) && db == old(db) && past == old(past) && journals == old(journals)
                else
                  && r == Ok(Answer(draftId, d.revision + 1, |d.applied| > 1, true))
                  && Becomes(old(past), past, draftId,
                             Draft(actor, d.revision + 1, Last(d.applied).before, Front(d.applied), d.undone + [Last(d.applied)], Active))
    {
      hide Sane, FromJournal;
      r := Submit(draftId, actor, UndoOp(expected));
    }

    method PostRedo(draftId: Id, actor: Id, expected: nat) returns (r: Result<Answer, RequestError>)
      requires Valid()
      modifies this
      ensures Valid()
      ensures r == Outcome(old(past), draftId, actor, RedoOp(expected), exec, valid)
      ensures past == PastAfter(old(past), draftId, RedoOp(expected), r.Ok?, exec, valid)
      ensures journals == JournalsAfter(old(journals), draftId, RedoOp(expected), r.Ok?)
      ensures if !Admits(old(past), draftId, actor, expected) then
                r == Err(Refusal(old(past), draftId, actor)) && db == old(db) && past == old(past) && journals == old(journals)
              else
                var d := old(past)[draftId].draft;
                if d.undone == [] then
                  r == Err(Rejected(NothingToRedo)) && db == old(db) && past == old(past) && journals == old(journals)
                else
                  && r == Ok(Answer(draftId, d.revision + 1, true, |d.undone| > 1))
                  && Becomes(old(past), past, draftId,
                             Draft(actor, d.revision + 1, Last(d.undone).before, d.applied + [Last(d.undone)], Front(d.undone), Active))
    {
      hide Sane, FromJournal;
      r := Submit(draftId, actor, RedoOp(expected));
    }

    /** `base` is what fetching the geometry of the draft's base route version gives. */
    method PostReset(draftId: Id, actor: Id, expected: nat, base: Result<G, RequestError>)
        returns (r: Result<Answer, RequestError>)
      requires Valid()
      modifies this
      ensures Valid()
      ensures base.Ok? ==>
                && r == Outcome(old(past), draftId, actor, ResetOp(expected, base.value), exec, valid)
                && past == PastAfter(old(past), draftId, ResetOp(expected, base.value), r.Ok?, exec, valid)
                && journals == JournalsAfter(old(journals), draftId, ResetOp(expected, base.value), r.Ok?)
      ensures base.Ok? ==>
                if !Admits(old(past), draftId, actor, expected) then
                  r == Err(Refusal(old(past), draftId, actor)) && db == old(db) && past == old(past) && journals == old(journals)
                else if !valid(base.value) then
                  r == Err(Rejected(InvalidGeometry)) && db == old(db) && past == old(past) && journals == old(journals)
                else
                  && r == Ok(Answer(draftId, expected + 1, false, false))
                  && Becomes(old(past), past, draftId, Draft(actor, expected + 1, base.value, [], [], Active))
      ensures base.Err? ==>
                && db == old(db) && past == old(past) && journals == old(journals)
                && r == Err(if draftId in past && past[draftId].draft.owner == actor then base.error else NotFound)
    {
      hide Sane, FromJournal;
      if base.Ok? {
        r := Submit(draftId, actor, ResetOp(expected, base.value));
      } else {
        var loaded := Load(draftId);
        r := Err(if loaded.None? || loaded.value.owner != actor then NotFound else base.error);
      }
    }

    /**
     Never succeeds: an active draft answers with a revision conflict.  Building that answer takes one from an
     unsigned revision, which at 0 ends the request if overflows are `checked`.
     */
    method DeleteDraft(draftId: Id, actor: Id, checked: bool) returns (r: Result<(), RequestError>)
      requires Valid()
      modifies this
      ensures Valid() && db == old(db) && past == old(past) && journals == old(journals)
      ensures r == Err(if draftId !in past || past[draftId].draft.owner != actor then NotFound
                       else if past[draftId].draft.state != Active then Rejected(DraftNotActive)
                       else if checked && past[draftId].draft.revision == 0 then Overflow
                       else Rejected(RevisionConflict))
    {
      var loaded := Load(draftId);
      if loaded.None? || loaded.value.owner != actor { return Err(NotFound); }
      var d := loaded.value;
      if d.state != Active { return Err(Rejected(DraftNotActive)); }
      var written := Update(db, draftId, d.(state := Discarded));
      DiscardIsNeverStored(db, draftId, d);
      if checked && d.revision == 0 { return Err(Overflow); }
      r := Err(Rejected(written.error));
    }
  }
}
