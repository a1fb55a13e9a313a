/** The revision a replayed request reports, against the revision its operation once produced. */
module RouteReplay {
  import opened Common
  import opened RouteDraft

  /**
   A draft together with what happened to it: the revision each operation still in one of the
   stacks produced when it was applied, and whether nothing had been undone or reset by then.
   */
  datatype History<G, O> = History(draft: Draft<G, O>, born: map<Id, nat>, quiet: map<Id, bool>, disturbed: bool)

  function Start<G, O>(owner: Id, base: G): History<G, O> {
    History(NewDraft(owner, base), map[], map[], false)
  }

  function Record<G, O>(repo: Repo, h: History<G, O>, a: Action<G, O>, exec: (G, O) -> Option<G>,
                        valid: G -> bool): History<G, O>
  {
    var next := StepIn(repo, h.draft, a, exec, valid);
    if !Succeeds(h.draft, a, exec, valid) then h
    else if a.ApplyOp? then History(next, h.born[a.id := next.revision], h.quiet[a.id := !h.disturbed], h.disturbed)
    else h.(draft := next, disturbed := h.disturbed || !a.RedoOp?)
  }

  function RecordAll<G, O>(repo: Repo, h: History<G, O>, actions: seq<Action<G, O>>,
                          exec: (G, O) -> Option<G>, valid: G -> bool): History<G, O>
  {
    if actions == [] then h else Record(repo, RecordAll(repo, h, Front(actions), exec, valid), Last(actions), exec, valid)
  }

  /** What the replay path answers for the operation at this index of the applied stack. */
  function ReplayRevision(index: nat): nat {
    index + 1
  }

  /** Revisions that left no entry on the stack: two for each undo, and more for a reset. */
  function Gap<G, O>(d: Draft<G, O>): int {
    d.revision - |d.applied|
  }

  predicate EntryDated<G, O>(h: History<G, O>, id: Id, index: int) {
    id in h.born && id in h.quiet && index + 1 <= h.born[id] && (index + 1 == h.born[id] <==> h.quiet[id])
  }

  /** The index an undone entry returns to when it is redone. */
  function UndoneIndex<G, O>(d: Draft<G, O>, j: int): int {
    |d.applied| + |d.undone| - 1 - j
  }

  ghost predicate Dated<G, O>(h: History<G, O>) {
    && 0 <= Gap(h.draft) && (Gap(h.draft) == 0 <==> !h.disturbed)
    && (forall i | 0 <= i < |h.draft.applied| :: EntryDated(h, h.draft.applied[i].id, i))
    && (forall j | 0 <= j < |h.draft.undone| :: EntryDated(h, h.draft.undone[j].id, UndoneIndex(h.draft, j)))
    && (forall i, j | 0 <= i < j < |h.draft.applied| :: h.draft.applied[i].id != h.draft.applied[j].id)
    && (forall i, j | 0 <= i < j < |h.draft.undone| :: h.draft.undone[i].id != h.draft.undone[j].id)
    && (forall i, j | 0 <= i < |h.draft.applied| && 0 <= j < |h.draft.undone| :: h.draft.applied[i].id != h.draft.undone[j].id)
  }

  lemma GapNeverShrinks<G, O>(repo: Repo, d: Draft<G, O>, a: Action<G, O>, exec: (G, O) -> Option<G>, valid: G -> bool)
    requires Gap(d) >= 0
    ensures Gap(d) <= Gap(StepIn(repo, d, a, exec, valid))
    ensures Succeeds(d, a, exec, valid) ==> (Gap(d) == Gap(StepIn(repo, d, a, exec, valid)) <==> a.ApplyOp? || a.RedoOp?)
  {
  }

  lemma ApplyKeepsDated<G, O>(repo: Repo, h: History<G, O>, a: Action<G, O>, exec: (G, O) -> Option<G>,
                              valid: G -> bool)
    requires Dated(h) && a.ApplyOp? && Succeeds(h.draft, a, exec, valid)
    ensures Dated(Record(repo, h, a, exec, valid))
  {
    var d, h' := h.draft, Record(repo, h, a, exec, valid);
    forall i | 0 <= i < |h'.draft.applied| ensures EntryDated(h', h'.draft.applied[i].id, i) {
      if i < |d.applied| { assert EntryDated(h, d.applied[i].id, i); }
    }
  }

  lemma UndoKeepsDated<G, O>(repo: Repo, h: History<G, O>, a: Action<G, O>, exec: (G, O) -> Option<G>, valid: G -> bool)
    requires Dated(h) && a.UndoOp? && Succeeds(h.draft, a, exec, valid)
    ensures Dated(Record(repo, h, a, exec, valid))
  {
    var d, h' := h.draft, Record(repo, h, a, exec, valid);
    assert EntryDated(h, Last(d.applied).id, |d.applied| - 1);
    forall i | 0 <= i < |h'.draft.applied| ensures EntryDated(h', h'.draft.applied[i].id, i) {
      assert EntryDated(h, d.applied[i].id, i);
    }
    forall j | 0 <= j < |h'.draft.undone| ensures EntryDated(h', h'.draft.undone[j].id, UndoneIndex(h'.draft, j)) {
      if j < |d.undone| { assert EntryDated(h, d.undone[j].id, UndoneIndex(d, j)); }
    }
  }

  lemma RedoKeepsDated<G, O>(repo: Repo, h: History<G, O>, a: Action<G, O>, exec: (G, O) -> Option<G>, valid: G -> bool)
    requires Dated(h) && a.RedoOp? && Succeeds(h.draft, a, exec, valid)
    ensures Dated(Record(repo, h, a, exec, valid))
  {
    var d, h' := h.draft, Record(repo, h, a, exec, valid);
    assert EntryDated(h, Last(d.undone).id, UndoneIndex(d, |d.undone| - 1));
    forall i | 0 <= i < |h'.draft.applied| ensures EntryDated(h', h'.draft.applied[i].id, i) {
      if i < |d.applied| { assert EntryDated(h, d.applied[i].id, i); }
    }
    forall j | 0 <= j < |h'.draft.undone| ensures EntryDated(h', h'.draft.undone[j].id, UndoneIndex(h'.draft, j)) {
      assert EntryDated(h, d.undone[j].id, UndoneIndex(d, j));
    }
  }

  lemma RecordKeepsDated<G, O>(repo: Repo, h: History<G, O>, a: Action<G, O>, exec: (G, O) -> Option<G>,
                               valid: G -> bool)
    requires Dated(h)
    ensures Dated(Record(repo, h, a, exec, valid))
  {
    if Succeeds(h.draft, a, exec, valid) {
      match a
      case ApplyOp(_, _, _) => ApplyKeepsDated(repo, h, a, exec, valid);
      case UndoOp(_) => UndoKeepsDated(repo, h, a, exec, valid);
      case RedoOp(_) => RedoKeepsDated(repo, h, a, exec, valid);
      case ResetOp(_, _) => GapNeverShrinks(repo, h.draft, a, exec, valid);
    }
  }

  lemma {:induction false} RunIsDated<G, O>(repo: Repo, owner: Id, base: G, actions: seq<Action<G, O>>,
                                          exec: (G, O) -> Option<G>, valid: G -> bool)
    ensures Dated(RecordAll(repo, Start(owner, base), actions, exec, valid))
    ensures RecordAll(repo, Start(owner, base), actions, exec, valid).draft == Run(repo, NewDraft(owner, base), actions, exec, valid)
    decreases |actions|
  {
    if actions != [] {
      RunIsDated(repo, owner, base, Front(actions), exec, valid);
      var h := RecordAll(repo, Start<G, O>(owner, base), Front(actions), exec, valid);
      RecordKeepsDated(repo, h, Last(actions), exec, valid);
    }
  }

  /**
   In every run, in either repository, the replayed revision is at most the one the operation produced, and equal
   to it exactly when no undo and no reset had succeeded before the operation was applied.
   */
  lemma ReplayNeverExceedsOriginal<G, O>(repo: Repo, owner: Id, base: G, actions: seq<Action<G, O>>, i: nat,
                                         exec: (G, O) -> Option<G>, valid: G -> bool)
    requires i < |Run(repo, NewDraft(owner, base), actions, exec, valid).applied|
    ensures var h := RecordAll(repo, Start(owner, base), actions, exec, valid);
            var id := Run(repo, NewDraft(owner, base), actions, exec, valid).applied[i].id;
            && id in h.born && id in h.quiet
            && ReplayRevision(i) <= h.born[id] && (ReplayRevision(i) == h.born[id] <==> h.quiet[id])
  {
    RunIsDated(repo, owner, base, actions, exec, valid);
    var h := RecordAll(repo, Start<G, O>(owner, base), actions, exec, valid);
    assert EntryDated(h, h.draft.applied[i].id, i);
  }

  /** The birth date recorded is the revision the application answered with. */
  lemma BornIsAnswer<G, O>(repo: Repo, h: History<G, O>, id: Id, operation: O, exec: (G, O) -> Option<G>,
                           valid: G -> bool)
    requires Dated(h)
    requires Succeeds(h.draft, ApplyOp(id, operation, h.draft.revision), exec, valid)
    ensures var h' := Record(repo, h, ApplyOp(id, operation, h.draft.revision), exec, valid);
            && h'.born[id] == h'.draft.revision && Last(h'.draft.applied).id == id
            && (ReplayRevision(|h'.draft.applied| - 1) == h'.draft.revision <==> !h.disturbed)
  {
    GapNeverShrinks(repo, h.draft, ApplyOp(id, operation, h.draft.revision), exec, valid);
  }
}
