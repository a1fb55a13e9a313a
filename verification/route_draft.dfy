/**
 The route draft: a geometry edited by operations that can be undone and redone.
 Geometry and operations are parameters; `exec` says what an operation makes of a geometry,
 or that it rejects it.
 */
module RouteDraft {
  import opened Common

  datatype DraftState = Active | Published | Discarded

  datatype DraftError =
    | DraftNotActive | RevisionConflict | NothingToUndo | NothingToRedo | OperationRejected | InvalidGeometry

  datatype Entry<G, O> = Entry(id: Id, operation: O, before: G)

  datatype Draft<G, O> = Draft(
    owner: Id, revision: nat, geometry: G, applied: seq<Entry<G, O>>, undone: seq<Entry<G, O>>, state: DraftState)

  datatype Action<G, O> =
    | ApplyOp(id: Id, operation: O, expected: nat)
    | UndoOp(expected: nat)
    | RedoOp(expected: nat)
    | ResetOp(expected: nat, base: G)

  function NewDraft<G, O>(owner: Id, base: G): Draft<G, O> {
    Draft(owner, 0, base, [], [], Active)
  }

  predicate HasId<G, O>(entries: seq<Entry<G, O>>, id: Id) {
    exists i :: 0 <= i < |entries| && entries[i].id == id
  }

  function Guard<G, O>(d: Draft<G, O>, expected: nat): Option<DraftError> {
    if d.state != Active then Some(DraftNotActive)
    else if expected != d.revision then Some(RevisionConflict)
    else None
  }

  function Perform<G, O>(d: Draft<G, O>, a: Action<G, O>, exec: (G, O) -> Option<G>, valid: G -> bool)
      : Result<Draft<G, O>, DraftError>
  {
    var guard := Guard(d, a.expected);
    if guard.Some? then Err(guard.value)
    else match a
      case ApplyOp(id, operation, _) =>
        if HasId(d.applied, id) then Ok(d)
        else (match exec(d.geometry, operation)
              case None => Err(OperationRejected)
              case Some(g) => Ok(Draft(d.owner, d.revision + 1, g, d.applied + [Entry(id, operation, d.geometry)], [], d.state)))
      case UndoOp(_) =>
        if d.applied == [] then Err(NothingToUndo)
        else Ok(Draft(d.owner, d.revision + 1, Last(d.applied).before, Front(d.applied),
                      d.undone + [Last(d.applied).(before := d.geometry)], d.state))
      case RedoOp(_) =>
        if d.undone == [] then Err(NothingToRedo)
        else Ok(Draft(d.owner, d.revision + 1, Last(d.undone).before, d.applied + [Last(d.undone).(before := d.geometry)],
                      Front(d.undone), d.state))
      case ResetOp(_, base) =>
        if valid(base) then Ok(Draft(d.owner, d.revision + 1, base, [], [], d.state)) else Err(InvalidGeometry)
  }

  /** A rejected request leaves the draft as it was. */
  function Step<G, O>(d: Draft<G, O>, a: Action<G, O>, exec: (G, O) -> Option<G>, valid: G -> bool): Draft<G, O> {
    var r := Perform(d, a, exec, valid);
    if r.Ok? then r.value else d
  }

  predicate Succeeds<G, O>(d: Draft<G, O>, a: Action<G, O>, exec: (G, O) -> Option<G>, valid: G -> bool) {
    var r := Perform(d, a, exec, valid);
    r.Ok? && r.value.revision == d.revision + 1
  }

  function BaseAfter<G, O>(base: G, d: Draft<G, O>, a: Action<G, O>, exec: (G, O) -> Option<G>, valid: G -> bool): G {
    if a.ResetOp? && Succeeds(d, a, exec, valid) then a.base else base
  }

  /** The repositories a draft can live in between two requests. */
  datatype Repo = InMemory | Postgres

  function EntryWith<G, O>(entries: seq<Entry<G, O>>, id: Id): (e: Entry<G, O>)
    requires HasId(entries, id)
    ensures e in entries && e.id == id
    decreases |entries|
  {
    if Last(entries).id == id then Last(entries) else EntryWith(Front(entries), id)
  }

  /**
   The draft the next request loads.  Postgres never rewrites what an operation was first stored with: an entry that
   changes stacks keeps that geometry, where the draft itself swaps it, and so does the entry of an undone operation
   whose id is applied again, which keeps the first operation as well.
   */
  function StepIn<G, O>(repo: Repo, d: Draft<G, O>, a: Action<G, O>, exec: (G, O) -> Option<G>,
                        valid: G -> bool): Draft<G, O>
  {
    var next := Step(d, a, exec, valid);
    if repo.InMemory? || !Succeeds(d, a, exec, valid) then next
    else match a
      case ApplyOp(id, _, _) =>
        if HasId(d.undone, id) then next.(applied := d.applied + [EntryWith(d.undone, id)]) else next
      case UndoOp(_) => next.(undone := d.undone + [Last(d.applied)])
      case RedoOp(_) => next.(applied := d.applied + [Last(d.undone)])
      case ResetOp(_, _) => next
  }

  // ----- the stacks tell the truth about the geometry -----

  /** What the operations make of the base, one after the other. */
  function Replay<G, O>(base: G, entries: seq<Entry<G, O>>, exec: (G, O) -> Option<G>): Option<G> {
    if entries == [] then Some(base)
    else
      var g := Replay(base, Front(entries), exec);
      if g.None? then None else exec(g.value, Last(entries).operation)
  }

  /** Each applied entry remembers the geometry its operation turned into the next one. */
  ghost predicate AppliedSound<G, O>(base: G, applied: seq<Entry<G, O>>, g: G, exec: (G, O) -> Option<G>) {
    if applied == [] then g == base
    else exec(Last(applied).before, Last(applied).operation) == Some(g)
         && AppliedSound(base, Front(applied), Last(applied).before, exec)
  }

  /** Each undone entry remembers the geometry its operation leads to. */
  ghost predicate UndoneSound<G, O>(undone: seq<Entry<G, O>>, g: G, exec: (G, O) -> Option<G>) {
    undone == [] ||
    (exec(g, Last(undone).operation) == Some(Last(undone).before)
     && UndoneSound(Front(undone), Last(undone).before, exec))
  }

  ghost predicate Sound<G, O>(base: G, d: Draft<G, O>, exec: (G, O) -> Option<G>) {
    AppliedSound(base, d.applied, d.geometry, exec) && UndoneSound(d.undone, d.geometry, exec)
  }

  lemma StepKeepsSound<G, O>(base: G, d: Draft<G, O>, a: Action<G, O>, exec: (G, O) -> Option<G>, valid: G -> bool)
    requires Sound(base, d, exec)
    ensures Sound(BaseAfter(base, d, a, exec, valid), Step(d, a, exec, valid), exec)
  {
    var r := Perform(d, a, exec, valid);
    if r.Ok? && r.value.revision == d.revision + 1 {
      match a {
        case ApplyOp(id, operation, _) => assert Front(r.value.applied) == d.applied;
        case UndoOp(_) => assert Front(r.value.undone) == d.undone;
        case RedoOp(_) => assert Front(r.value.applied) == d.applied;
        case ResetOp(_, _) =>
      }
    }
  }

  lemma {:induction false} AppliedSoundReplays<G, O>(base: G, applied: seq<Entry<G, O>>, g: G,
                                                     exec: (G, O) -> Option<G>)
    requires AppliedSound(base, applied, g, exec)
    ensures Replay(base, applied, exec) == Some(g)
    ensures applied != [] ==> applied[0].before == base
    decreases |applied|
  {
    if applied != [] { AppliedSoundReplays(base, Front(applied), Last(applied).before, exec); }
  }

  function Run<G, O>(repo: Repo, d: Draft<G, O>, actions: seq<Action<G, O>>, exec: (G, O) -> Option<G>,
                     valid: G -> bool): Draft<G, O>
  {
    if actions == [] then d else StepIn(repo, Run(repo, d, Front(actions), exec, valid), Last(actions), exec, valid)
  }

  function RunBase<G, O>(repo: Repo, base: G, d: Draft<G, O>, actions: seq<Action<G, O>>,
                         exec: (G, O) -> Option<G>, valid: G -> bool): G
  {
    if actions == [] then base
    else BaseAfter(RunBase(repo, base, d, Front(actions), exec, valid), Run(repo, d, Front(actions), exec, valid),
                   Last(actions), exec, valid)
  }

  lemma {:induction false} RunKeepsSound<G, O>(base: G, d: Draft<G, O>, actions: seq<Action<G, O>>,
                                               exec: (G, O) -> Option<G>, valid: G -> bool)
    requires Sound(base, d, exec)
    ensures Sound(RunBase(InMemory, base, d, actions, exec, valid), Run(InMemory, d, actions, exec, valid), exec)
    decreases |actions|
  {
    if actions != [] {
      var front := Front(actions);
      RunKeepsSound(base, d, front, exec, valid);
      StepKeepsSound(RunBase(InMemory, base, d, front, exec, valid), Run(InMemory, d, front, exec, valid), Last(actions), exec, valid);
    }
  }

  /** In every in-memory run the geometry is the base with exactly the applied operations performed on it. */
  lemma GeometryIsReplay<G, O>(owner: Id, base: G, actions: seq<Action<G, O>>, exec: (G, O) -> Option<G>,
                               valid: G -> bool)
    ensures var d := Run(InMemory, NewDraft(owner, base), actions, exec, valid);
            Replay(RunBase(InMemory, base, NewDraft(owner, base), actions, exec, valid), d.applied, exec) == Some(d.geometry)
  {
    RunKeepsSound(base, NewDraft(owner, base), actions, exec, valid);
    var d := Run(InMemory, NewDraft(owner, base), actions, exec, valid);
    AppliedSoundReplays(RunBase(InMemory, base, NewDraft(owner, base), actions, exec, valid), d.applied, d.geometry, exec);
  }

  /** Undo and redo take each other back, but for the revision. */
  lemma RedoRevertsUndo<G, O>(d: Draft<G, O>, exec: (G, O) -> Option<G>, valid: G -> bool)
    requires d.state == Active
    ensures d.applied != [] ==>
              var u := Step(d, UndoOp(d.revision), exec, valid);
              Step(u, RedoOp(u.revision), exec, valid) == d.(revision := d.revision + 2)
    ensures d.undone != [] ==>
              var r := Step(d, RedoOp(d.revision), exec, valid);
              Step(r, UndoOp(r.revision), exec, valid) == d.(revision := d.revision + 2)
  {
    if d.applied != [] {
      var u := Step(d, UndoOp(d.revision), exec, valid);
      assert Front(u.undone) == d.undone && Front(d.applied) + [Last(d.applied)] == d.applied;
    }
    if d.undone != [] {
      var r := Step(d, RedoOp(d.revision), exec, valid);
      assert Front(r.applied) == d.applied && Front(d.undone) + [Last(d.undone)] == d.undone;
    }
  }

  // ----- drafts that live in Postgres -----

  /** No operation is applied under the id of one that is undone; the lookup before an apply sees to that. */
  predicate NoReapply<G, O>(d: Draft<G, O>, actions: seq<Action<G, O>>, exec: (G, O) -> Option<G>, valid: G -> bool)
    decreases |actions|
  {
    actions == [] ||
    (NoReapply(d, Front(actions), exec, valid)
     && (Last(actions).ApplyOp? ==> !HasId(Run(Postgres, d, Front(actions), exec, valid).undone, Last(actions).id)))
  }

  /** The bottom entry of the stacks remembers the base, so undoing everything leads back to it. */
  ghost predicate BottomIsBase<G, O>(base: G, d: Draft<G, O>)
  {
    if d.applied != [] then d.applied[0].before == base
    else d.geometry == base && (d.undone != [] ==> Last(d.undone).before == base)
  }

  lemma {:induction false} RunKeepsBottom<G, O>(base: G, d: Draft<G, O>, actions: seq<Action<G, O>>,
                                                exec: (G, O) -> Option<G>, valid: G -> bool)
    requires BottomIsBase(base, d) && NoReapply(d, actions, exec, valid)
    ensures BottomIsBase(RunBase(Postgres, base, d, actions, exec, valid), Run(Postgres, d, actions, exec, valid))
    ensures Run(Postgres, d, actions, exec, valid).state == d.state
    decreases |actions|
  {
    if actions != [] {
      RunKeepsBottom(base, d, Front(actions), exec, valid);
    }
  }

  /** `n` undos in a row, the first from this revision. */
  function Undos<G, O>(revision: nat, n: nat): seq<Action<G, O>> {
    if n == 0 then [] else Undos(revision, n - 1) + [UndoOp(revision + n - 1)]
  }

  lemma {:induction false} UndosPop<G, O>(d: Draft<G, O>, n: nat, exec: (G, O) -> Option<G>, valid: G -> bool)
    requires d.state == Active && n <= |d.applied|
    ensures var t := Run(Postgres, d, Undos(d.revision, n), exec, valid); var m := |d.applied| - n;
            && t.state == Active && t.revision == d.revision + n && t.applied == d.applied[..m]
            && t.geometry == if n == 0 then d.geometry else d.applied[m].before
  {
    if n > 0 {
      UndosPop(d, n - 1, exec, valid);
      assert Front(Undos<G, O>(d.revision, n)) == Undos(d.revision, n - 1);
      assert d.applied[..|d.applied| - n + 1] == d.applied[..|d.applied| - n] + [d.applied[|d.applied| - n]];
    } else {
      assert d.applied[..|d.applied|] == d.applied;
    }
  }

  /** After any such run, undoing every applied operation gives the base again. */
  lemma UndoingAllRestoresBase<G, O>(base: G, d: Draft<G, O>, actions: seq<Action<G, O>>,
                                     exec: (G, O) -> Option<G>, valid: G -> bool)
    requires BottomIsBase(base, d) && NoReapply(d, actions, exec, valid)
    ensures var t, b := Run(Postgres, d, actions, exec, valid), RunBase(Postgres, base, d, actions, exec, valid);
            && BottomIsBase(b, t)
            && (d.state == Active ==>
                  var u := Run(Postgres, t, Undos(t.revision, |t.applied|), exec, valid);
                  u.applied == [] && u.geometry == b)
  {
    RunKeepsBottom(base, d, actions, exec, valid);
    var t := Run(Postgres, d, actions, exec, valid);
    if d.state == Active { UndosPop(t, |t.applied|, exec, valid); }
  }

  /** Each undone entry remembers the geometry its operation starts from once everything below it is redone. */
  ghost predicate FrozenSound<G, O>(undone: seq<Entry<G, O>>, g: G, exec: (G, O) -> Option<G>) {
    undone == [] ||
    (Last(undone).before == g && var next := exec(g, Last(undone).operation);
     next.Some? && FrozenSound(Front(undone), next.value, exec))
  }

  /** The stored stacks tell the truth about this geometry. */
  ghost predicate StoredSound<G, O>(base: G, applied: seq<Entry<G, O>>, undone: seq<Entry<G, O>>, g: G,
                                    exec: (G, O) -> Option<G>)
  {
    AppliedSound(base, applied, g, exec) && FrozenSound(undone, g, exec)
  }

  /** The last request that succeeded was a redo. */
  predicate AfterRedo<G, O>(d: Draft<G, O>, actions: seq<Action<G, O>>, exec: (G, O) -> Option<G>, valid: G -> bool)
    decreases |actions|
  {
    actions != [] &&
    if Succeeds(Run(Postgres, d, Front(actions), exec, valid), Last(actions), exec, valid) then Last(actions).RedoOp?
    else AfterRedo(d, Front(actions), exec, valid)
  }

  /** No operation is applied right after a redo. */
  predicate NoApplyAfterRedo<G, O>(d: Draft<G, O>, actions: seq<Action<G, O>>, exec: (G, O) -> Option<G>, valid: G -> bool)
    decreases |actions|
  {
    actions == [] ||
    (NoApplyAfterRedo(d, Front(actions), exec, valid)
     && (Last(actions).ApplyOp? && Succeeds(Run(Postgres, d, Front(actions), exec, valid), Last(actions), exec, valid) ==>
           !AfterRedo(d, Front(actions), exec, valid)))
  }

  /**
   The stacks are sound for some geometry `g`.  The draft has that geometry, but right after a redo it has the one
   from before the operation on top, however many redos there were.
   */
  ghost predicate Lagging<G, O>(base: G, d: Draft<G, O>, g: G, lag: bool, exec: (G, O) -> Option<G>) {
    && StoredSound(base, d.applied, d.undone, g, exec)
    && if lag then d.applied != [] && d.geometry == Last(d.applied).before else d.geometry == g
  }

  lemma RefusedChangesNothing<G, O>(repo: Repo, base: G, d: Draft<G, O>, a: Action<G, O>, exec: (G, O) -> Option<G>,
                                    valid: G -> bool)
    requires !Succeeds(d, a, exec, valid)
    ensures StepIn(repo, d, a, exec, valid) == d && BaseAfter(base, d, a, exec, valid) == base
  {
  }

  // ----- the geometry of every stored run -----

  /** The applied entries, then the undone ones in the order in which they would be redone. */
  function Line<G, O>(applied: seq<Entry<G, O>>, undone: seq<Entry<G, O>>): seq<Entry<G, O>>
    decreases |undone|
  {
    if undone == [] then applied else Line(applied + [Last(undone)], Front(undone))
  }

  lemma {:induction false} LineStartsWithApplied<G, O>(applied: seq<Entry<G, O>>, undone: seq<Entry<G, O>>)
    ensures |Line(applied, undone)| == |applied| + |undone| && applied <= Line(applied, undone)
    ensures undone != [] ==> Line(applied, undone)[|applied|] == Last(undone)
    decreases |undone|
  {
    if undone != [] { LineStartsWithApplied(applied + [Last(undone)], Front(undone)); }
  }

  /**
   Where operations are missing from the geometry: from the draft's own if `lag`, and for each entry of the line
   from the one it was applied to.  What is missing is the operation right below.
   */
  datatype Marks = Marks(line: seq<bool>, lag: bool)

  function MarksAfter<G, O>(d: Draft<G, O>, marks: Marks, a: Action<G, O>, exec: (G, O) -> Option<G>, valid: G -> bool): (next: Marks)
    requires |marks.line| == |d.applied| + |d.undone|
    ensures var t := StepIn(Postgres, d, a, exec, valid); |next.line| == |t.applied| + |t.undone|
  {
    if !Succeeds(d, a, exec, valid) then marks
    else match a
      case ApplyOp(_, _, _) => Marks(marks.line[..|d.applied|] + [marks.lag], false)
      case UndoOp(_) => marks.(lag := marks.line[|d.applied| - 1])
      case RedoOp(_) => marks.(lag := true)
      case ResetOp(_, _) => Marks([], false)
  }

  function RunMarks<G, O>(d: Draft<G, O>, marks: Marks, actions: seq<Action<G, O>>, exec: (G, O) -> Option<G>,
                          valid: G -> bool): (r: Marks)
    requires |marks.line| == |d.applied| + |d.undone|
    ensures var t := Run(Postgres, d, actions, exec, valid); |r.line| == |t.applied| + |t.undone|
    decreases |actions|
  {
    if actions == [] then marks
    else MarksAfter(Run(Postgres, d, Front(actions), exec, valid), RunMarks(d, marks, Front(actions), exec, valid),
                    Last(actions), exec, valid)
  }

  /** The operations that are in the geometry: the one on top unless it is missing, and so on down. */
  function Effective<G, O>(applied: seq<Entry<G, O>>, marks: seq<bool>, lag: bool): seq<Entry<G, O>>
    requires |marks| == |applied|
    decreases |applied|
  {
    if applied == [] then []
    else Effective(Front(applied), Front(marks), Last(marks)) + if lag then [] else [Last(applied)]
  }

  /** An entry remembers what the operations below it that are in its geometry make of the base. */
  ghost predicate Remembers<G, O>(base: G, line: seq<Entry<G, O>>, marks: seq<bool>, i: int, exec: (G, O) -> Option<G>)
    requires |marks| == |line| && 0 <= i < |line|
  {
    Replay(base, Effective(line[..i], marks[..i], marks[i]), exec) == Some(line[i].before)
  }

  ghost predicate Marked<G, O>(base: G, line: seq<Entry<G, O>>, marks: seq<bool>, exec: (G, O) -> Option<G>) {
    |marks| == |line| && forall i | 0 <= i < |line| :: Remembers(base, line, marks, i, exec)
  }

  ghost predicate StoredAsMarked<G, O>(base: G, d: Draft<G, O>, marks: Marks, exec: (G, O) -> Option<G>) {
    && Marked(base, Line(d.applied, d.undone), marks.line, exec)
    && |marks.line| >= |d.applied|
    && Replay(base, Effective(d.applied, marks.line[..|d.applied|], marks.lag), exec) == Some(d.geometry)
  }

  lemma ReplayAppends<G, O>(base: G, entries: seq<Entry<G, O>>, e: Entry<G, O>, g: G, exec: (G, O) -> Option<G>)
    requires Replay(base, entries, exec) == Some(g)
    ensures Replay(base, entries + [e], exec) == exec(g, e.operation)
  {
    assert Front(entries + [e]) == entries;
  }

  lemma EffectiveAppends<G, O>(applied: seq<Entry<G, O>>, marks: seq<bool>, e: Entry<G, O>, mark: bool, lag: bool)
    requires |marks| == |applied|
    ensures Effective(applied + [e], marks + [mark], lag) == Effective(applied, marks, mark) + if lag then [] else [e]
  {
    assert Front(applied + [e]) == applied && Front(marks + [mark]) == marks;
  }

  lemma PrefixRemembers<G, O>(base: G, line: seq<Entry<G, O>>, marks: seq<bool>, m: nat, e: Entry<G, O>, lag: bool, i: nat,
                              exec: (G, O) -> Option<G>)
    requires |marks| == |line| && i < m <= |line| && Remembers(base, line, marks, i, exec)
    ensures Remembers(base, line[..m] + [e], marks[..m] + [lag], i, exec)
  {
    hide Replay, Effective;
    var line', marks' := line[..m] + [e], marks[..m] + [lag];
    assert line'[..i] == line[..i] && marks'[..i] == marks[..i] && line'[i] == line[i] && marks'[i] == marks[i];
  }

  lemma AppliedEntryIsMarked<G, O>(base: G, line: seq<Entry<G, O>>, marks: seq<bool>, m: nat, e: Entry<G, O>, lag: bool,
                                   exec: (G, O) -> Option<G>)
    requires Marked(base, line, marks, exec) && m <= |line|
    requires Replay(base, Effective(line[..m], marks[..m], lag), exec) == Some(e.before)
    ensures Marked(base, line[..m] + [e], marks[..m] + [lag], exec)
    ensures Replay(base, Effective(line[..m] + [e], marks[..m] + [lag], false), exec) == exec(e.before, e.operation)
  {
    hide Effective, Replay;
    EffectiveAppends(line[..m], marks[..m], e, lag, false);
    ReplayAppends(base, Effective(line[..m], marks[..m], lag), e, e.before, exec);
    var line', marks' := line[..m] + [e], marks[..m] + [lag];
    assert Remembers(base, line', marks', m, exec) by {
      assert line'[..m] == line[..m] && marks'[..m] == marks[..m];
    }
    hide Remembers;
    forall i | 0 <= i <= m ensures Remembers(base, line', marks', i, exec) {
      if i < m { PrefixRemembers(base, line, marks, m, e, lag, i, exec); }
    }
  }

  lemma RedoneEntryIsMissing<G, O>(base: G, line: seq<Entry<G, O>>, marks: seq<bool>, m: nat, exec: (G, O) -> Option<G>)
    requires Marked(base, line, marks, exec) && m < |line|
    ensures Replay(base, Effective(line[..m + 1], marks[..m + 1], true), exec) == Some(line[m].before)
  {
    hide Effective, Replay;
    assert Remembers(base, line, marks, m, exec);
    assert line[..m + 1] == line[..m] + [line[m]] && marks[..m + 1] == marks[..m] + [marks[m]];
    EffectiveAppends(line[..m], marks[..m], line[m], marks[m], true);
    assert Effective(line[..m], marks[..m], marks[m]) + [] == Effective(line[..m], marks[..m], marks[m]);
  }

  /** Undo and redo only move the place between the two stacks. */
  lemma LineStays<G, O>(d: Draft<G, O>, a: Action<G, O>, exec: (G, O) -> Option<G>, valid: G -> bool)
    requires (a.UndoOp? || a.RedoOp?) && Succeeds(d, a, exec, valid)
    ensures var t, line := StepIn(Postgres, d, a, exec, valid), Line(d.applied, d.undone);
            && Line(t.applied, t.undone) == line && |line| == |d.applied| + |d.undone|
            && d.applied <= line && t.applied <= line
            && (a.UndoOp? ==> d.applied != [] && |t.applied| == |d.applied| - 1 && t.geometry == line[|t.applied|].before)
            && (a.RedoOp? ==> d.undone != [] && |t.applied| == |d.applied| + 1 && t.geometry == line[|d.applied|].before)
  {
    var t := StepIn(Postgres, d, a, exec, valid);
    if a.UndoOp? {
      assert t.applied + [Last(d.applied)] == d.applied && Front(t.undone) == d.undone;
    }
    LineStartsWithApplied(d.applied, d.undone);
    LineStartsWithApplied(t.applied, t.undone);
  }

  lemma UndoKeepsMarked<G, O>(base: G, d: Draft<G, O>, marks: Marks, a: Action<G, O>, exec: (G, O) -> Option<G>,
                              valid: G -> bool)
    requires StoredAsMarked(base, d, marks, exec) && |marks.line| == |d.applied| + |d.undone|
    requires a.UndoOp? && Succeeds(d, a, exec, valid)
    ensures StoredAsMarked(base, StepIn(Postgres, d, a, exec, valid), MarksAfter(d, marks, a, exec, valid), exec)
  {
    LineStays(d, a, exec, valid);
    hide StepIn, Effective, Replay, Line, Succeeds;
    var t, line, m := StepIn(Postgres, d, a, exec, valid), Line(d.applied, d.undone), |d.applied| - 1;
    assert Remembers(base, line, marks.line, m, exec);
    assert line[..m] == t.applied && |t.applied| == m;
    hide Marked;
  }

  lemma RedoKeepsMarked<G, O>(base: G, d: Draft<G, O>, marks: Marks, a: Action<G, O>, exec: (G, O) -> Option<G>,
                              valid: G -> bool)
    requires StoredAsMarked(base, d, marks, exec) && |marks.line| == |d.applied| + |d.undone|
    requires a.RedoOp? && Succeeds(d, a, exec, valid)
    ensures StoredAsMarked(base, StepIn(Postgres, d, a, exec, valid), MarksAfter(d, marks, a, exec, valid), exec)
  {
    LineStays(d, a, exec, valid);
    hide StepIn, Effective, Replay, Line, Succeeds, Marked;
    var t, line, m := StepIn(Postgres, d, a, exec, valid), Line(d.applied, d.undone), |d.applied|;
    RedoneEntryIsMissing(base, line, marks.line, m, exec);
    assert line[..m + 1] == t.applied && |t.applied| == m + 1;
  }

  lemma ApplyKeepsMarked<G, O>(base: G, d: Draft<G, O>, marks: Marks, a: Action<G, O>, exec: (G, O) -> Option<G>,
                               valid: G -> bool)
    requires StoredAsMarked(base, d, marks, exec) && |marks.line| == |d.applied| + |d.undone|
    requires a.ApplyOp? && Succeeds(d, a, exec, valid) && !HasId(d.undone, a.id)
    ensures StoredAsMarked(base, StepIn(Postgres, d, a, exec, valid), MarksAfter(d, marks, a, exec, valid), exec)
  {
    var t := StepIn(Postgres, d, a, exec, valid);
    var e := Entry(a.id, a.operation, d.geometry);
    assert t.applied == d.applied + [e] && t.undone == [] && Line(t.applied, []) == t.applied;
    assert exec(d.geometry, a.operation) == Some(t.geometry);
    LineStartsWithApplied(d.applied, d.undone);
    var marks', m := MarksAfter(d, marks, a, exec, valid), |d.applied|;
    assert marks' == Marks(marks.line[..m] + [marks.lag], false) && marks'.line[..m + 1] == marks'.line;
    hide StepIn, Effective, Replay, Line, Succeeds, Marked, MarksAfter, HasId;
    var line := Line(d.applied, d.undone);
    assert line[..m] == d.applied;
    AppliedEntryIsMarked(base, line, marks.line, m, e, marks.lag, exec);
  }

  lemma {:induction false} RunKeepsMarked<G, O>(base: G, d: Draft<G, O>, marks: Marks, actions: seq<Action<G, O>>,
                                                exec: (G, O) -> Option<G>, valid: G -> bool)
    requires StoredAsMarked(base, d, marks, exec) && |marks.line| == |d.applied| + |d.undone|
    requires NoReapply(d, actions, exec, valid)
    ensures StoredAsMarked(RunBase(Postgres, base, d, actions, exec, valid), Run(Postgres, d, actions, exec, valid),
                           RunMarks(d, marks, actions, exec, valid), exec)
    decreases |actions|
  {
    hide StoredAsMarked, StepIn, BaseAfter;
    if actions != [] {
      var front, a := Front(actions), Last(actions);
      RunKeepsMarked(base, d, marks, front, exec, valid);
      var b, m := RunBase(Postgres, base, d, front, exec, valid), Run(Postgres, d, front, exec, valid);
      StepKeepsMarked(b, m, RunMarks(d, marks, front, exec, valid), a, exec, valid);
    }
  }

  lemma StepKeepsMarked<G, O>(base: G, d: Draft<G, O>, marks: Marks, a: Action<G, O>, exec: (G, O) -> Option<G>,
                              valid: G -> bool)
    requires StoredAsMarked(base, d, marks, exec) && |marks.line| == |d.applied| + |d.undone|
    requires a.ApplyOp? ==> !HasId(d.undone, a.id)
    ensures StoredAsMarked(BaseAfter(base, d, a, exec, valid), StepIn(Postgres, d, a, exec, valid),
                           MarksAfter(d, marks, a, exec, valid), exec)
  {
    if !Succeeds(d, a, exec, valid) {
      RefusedChangesNothing(Postgres, base, d, a, exec, valid);
    } else {
      match a
      case ApplyOp(_, _, _) => ApplyKeepsMarked(base, d, marks, a, exec, valid);
      case UndoOp(_) => UndoKeepsMarked(base, d, marks, a, exec, valid);
      case RedoOp(_) => RedoKeepsMarked(base, d, marks, a, exec, valid);
      case ResetOp(_, _) =>
    }
  }

  const UNMARKED := Marks([], false)

  /**
   In every stored run the geometry is the replay of the applied operations that are not missing: one is missing
   exactly if it came back by a redo and the next on the stack, or the draft itself, was left with what that redo
   left.
   */
  lemma StoredGeometryIsEffective<G, O>(owner: Id, base: G, actions: seq<Action<G, O>>, exec: (G, O) -> Option<G>,
                                        valid: G -> bool)
    requires NoReapply(NewDraft(owner, base), actions, exec, valid)
    ensures var start := NewDraft(owner, base);
            var d, b := Run(Postgres, start, actions, exec, valid), RunBase(Postgres, base, start, actions, exec, valid);
            var marks := RunMarks(start, UNMARKED, actions, exec, valid);
            Replay(b, Effective(d.applied, marks.line[..|d.applied|], marks.lag), exec) == Some(d.geometry)
  {
    RunKeepsMarked(base, NewDraft<G, O>(owner, base), UNMARKED, actions, exec, valid);
  }

  /** Nothing is missing if and only if neither the draft nor any entry above another is marked. */
  lemma {:induction false} NothingIsMissing<G, O>(applied: seq<Entry<G, O>>, marks: seq<bool>, lag: bool)
    requires |marks| == |applied|
    ensures |Effective(applied, marks, lag)| <= |applied|
    ensures Effective(applied, marks, lag) == applied <==>
            applied == [] || (!lag && forall i | 1 <= i < |marks| :: !marks[i])
    decreases |applied|
  {
    if applied != [] {
      NothingIsMissing(Front(applied), Front(marks), Last(marks));
      assert Front(applied) + [Last(applied)] == applied;
      if Effective(applied, marks, lag) == applied && !lag {
        assert Effective(applied, marks, lag)[..|applied| - 1] == Front(applied);
      }
      assert forall i | 1 <= i < |Front(marks)| :: Front(marks)[i] == marks[i];
    }
  }

  lemma OnlyTopIsMissing<G, O>(applied: seq<Entry<G, O>>, marks: seq<bool>)
    requires |marks| == |applied| && applied != [] && forall i | 0 <= i < |marks| :: !marks[i]
    ensures Effective(applied, marks, true) == Front(applied)
  {
    NothingIsMissing(Front(applied), Front(marks), Last(marks));
  }

  lemma {:induction false} NoApplyAfterRedoMarksNothing<G, O>(d: Draft<G, O>, actions: seq<Action<G, O>>,
                                                              exec: (G, O) -> Option<G>, valid: G -> bool)
    requires d.applied == [] && d.undone == [] && NoApplyAfterRedo(d, actions, exec, valid)
    ensures var marks := RunMarks(d, UNMARKED, actions, exec, valid);
            && (forall i | 0 <= i < |marks.line| :: !marks.line[i])
            && marks.lag == AfterRedo(d, actions, exec, valid)
            && (marks.lag ==> Run(Postgres, d, actions, exec, valid).applied != [])
    decreases |actions|
  {
    if actions != [] {
      var front := Front(actions);
      NoApplyAfterRedoMarksNothing(d, front, exec, valid);
      if !Succeeds(Run(Postgres, d, front, exec, valid), Last(actions), exec, valid) {
        RefusedChangesNothing(Postgres, d.geometry, Run(Postgres, d, front, exec, valid), Last(actions), exec, valid);
      }
    }
  }

  /**
   In particular, if nothing is applied right after a redo: unless the last success was a redo, the geometry is the
   replay of the applied operations.  After one or more redos it is the replay of all but the top one, and the
   replay of all of them if and only if the top one changes nothing.
   */
  lemma StoredGeometryIsReplay<G, O>(owner: Id, base: G, actions: seq<Action<G, O>>, exec: (G, O) -> Option<G>,
                                     valid: G -> bool)
    requires NoReapply(NewDraft(owner, base), actions, exec, valid)
    requires NoApplyAfterRedo(NewDraft(owner, base), actions, exec, valid)
    ensures var start := NewDraft(owner, base);
            var d, b := Run(Postgres, start, actions, exec, valid), RunBase(Postgres, base, start, actions, exec, valid);
            if AfterRedo(start, actions, exec, valid) then
              && d.applied != [] && Replay(b, Front(d.applied), exec) == Some(d.geometry)
              && (Replay(b, d.applied, exec) == Some(d.geometry) <==>
                    exec(d.geometry, Last(d.applied).operation) == Some(d.geometry))
            else Replay(b, d.applied, exec) == Some(d.geometry)
  {
    var start := NewDraft<G, O>(owner, base);
    StoredGeometryIsEffective(owner, base, actions, exec, valid);
    NoApplyAfterRedoMarksNothing(start, actions, exec, valid);
    hide RunMarks, Run, RunBase, NoReapply, NoApplyAfterRedo, AfterRedo, Effective, Replay;
    var b := RunBase(Postgres, base, start, actions, exec, valid);
    var d, marks := Run(Postgres, start, actions, exec, valid), RunMarks(start, UNMARKED, actions, exec, valid);
    var own := marks.line[..|d.applied|];
    if marks.lag {
      OnlyTopIsMissing(d.applied, own);
      ReplayAppends(b, Front(d.applied), Last(d.applied), d.geometry, exec);
      assert Front(d.applied) + [Last(d.applied)] == d.applied;
    } else {
      NothingIsMissing(d.applied, own, false);
    }
  }

  predicate NoRedo<G, O>(actions: seq<Action<G, O>>) {
    forall i | 0 <= i < |actions| :: !actions[i].RedoOp?
  }

  lemma StepKeepsApplied<G, O>(base: G, d: Draft<G, O>, a: Action<G, O>, exec: (G, O) -> Option<G>, valid: G -> bool)
    requires AppliedSound(base, d.applied, d.geometry, exec) && !a.RedoOp?
    requires a.ApplyOp? ==> !HasId(d.undone, a.id)
    ensures var next := StepIn(Postgres, d, a, exec, valid);
            AppliedSound(BaseAfter(base, d, a, exec, valid), next.applied, next.geometry, exec)
  {
    var next := StepIn(Postgres, d, a, exec, valid);
    if a.ApplyOp? && Succeeds(d, a, exec, valid) { assert Front(next.applied) == d.applied; }
  }

  lemma {:induction false} NoRedoKeepsApplied<G, O>(base: G, d: Draft<G, O>, actions: seq<Action<G, O>>,
                                                    exec: (G, O) -> Option<G>, valid: G -> bool)
    requires NoRedo(actions) && NoReapply(d, actions, exec, valid) && AppliedSound(base, d.applied, d.geometry, exec)
    ensures var t, b := Run(Postgres, d, actions, exec, valid), RunBase(Postgres, base, d, actions, exec, valid);
            AppliedSound(b, t.applied, t.geometry, exec)
    decreases |actions|
  {
    hide AppliedSound, StepIn, BaseAfter, HasId;
    if actions != [] {
      var front := Front(actions);
      NoRedoKeepsApplied(base, d, front, exec, valid);
      StepKeepsApplied(RunBase(Postgres, base, d, front, exec, valid), Run(Postgres, d, front, exec, valid), Last(actions),
                       exec, valid);
    }
  }

  /** As long as nothing is redone the stored geometry is the replay of the applied operations. */
  lemma GeometryIsReplayWithoutRedo<G, O>(base: G, d: Draft<G, O>, actions: seq<Action<G, O>>,
                                          exec: (G, O) -> Option<G>, valid: G -> bool)
    requires NoRedo(actions) && NoReapply(d, actions, exec, valid) && AppliedSound(base, d.applied, d.geometry, exec)
    ensures var t, b := Run(Postgres, d, actions, exec, valid), RunBase(Postgres, base, d, actions, exec, valid);
            AppliedSound(b, t.applied, t.geometry, exec) && Replay(b, t.applied, exec) == Some(t.geometry)
  {
    NoRedoKeepsApplied(base, d, actions, exec, valid);
    AppliedSoundReplays(RunBase(Postgres, base, d, actions, exec, valid), Run(Postgres, d, actions, exec, valid).applied,
                        Run(Postgres, d, actions, exec, valid).geometry, exec);
  }

  /**
   An operation applied under the id of an undone one is stored as that one: the replay is the stored geometry if
   and only if both make the same of the geometry before.
   */
  lemma ReapplyIsStoredAsFirst<G, O>(base: G, d: Draft<G, O>, a: Action<G, O>, exec: (G, O) -> Option<G>, valid: G -> bool)
    requires AppliedSound(base, d.applied, d.geometry, exec)
    requires a.ApplyOp? && Succeeds(d, a, exec, valid) && HasId(d.undone, a.id)
    ensures var r := StepIn(Postgres, d, a, exec, valid);
            && r.applied == d.applied + [EntryWith(d.undone, a.id)] && r.undone == []
            && (Replay(base, r.applied, exec) == Some(r.geometry) <==>
                  exec(d.geometry, EntryWith(d.undone, a.id).operation) == exec(d.geometry, a.operation))
  {
    var r := StepIn(Postgres, d, a, exec, valid);
    assert Front(r.applied) == d.applied;
    AppliedSoundReplays(base, d.applied, d.geometry, exec);
  }

  /** One redo from a stored draft that is right: it stays right if and only if the redone operation changes nothing. */
  lemma StoredRedoIsSoundOnlyForNoOps<G, O>(base: G, d: Draft<G, O>, exec: (G, O) -> Option<G>, valid: G -> bool)
    requires d.state == Active && d.undone != [] && StoredSound(base, d.applied, d.undone, d.geometry, exec)
    ensures var r := StepIn(Postgres, d, RedoOp(d.revision), exec, valid);
            && r.geometry == d.geometry && r.applied == d.applied + [Last(d.undone)] && r.undone == Front(d.undone)
            && (Replay(base, r.applied, exec) == Some(r.geometry) <==>
                  exec(d.geometry, Last(d.undone).operation) == Some(d.geometry))
  {
    var r := StepIn(Postgres, d, RedoOp(d.revision), exec, valid);
    assert Front(r.applied) == d.applied;
    AppliedSoundReplays(base, d.applied, d.geometry, exec);
  }

  /**
   What is applied right after a redo builds on a geometry that lacks the redone operation: the replay is the stored
   geometry if and only if the new operation makes the same of it with and without.
   */
  lemma ApplyAfterRedoLosesOperation<G, O>(base: G, d: Draft<G, O>, g: G, a: Action<G, O>, exec: (G, O) -> Option<G>,
                                           valid: G -> bool)
    requires Lagging(base, d, g, true, exec) && a.ApplyOp? && Succeeds(d, a, exec, valid) && !HasId(d.undone, a.id)
    ensures var r := StepIn(Postgres, d, a, exec, valid);
            && Some(r.geometry) == exec(d.geometry, a.operation)
            && (Replay(base, r.applied, exec) == Some(r.geometry) <==>
                  exec(g, a.operation) == exec(d.geometry, a.operation))
  {
    var r := StepIn(Postgres, d, a, exec, valid);
    assert Front(r.applied) == d.applied;
    AppliedSoundReplays(base, d.applied, g, exec);
  }

  /** Redo after undo puts the operation back on the stack but not its effect on the geometry. */
  lemma StoredRedoLosesOperation<G, O>(d: Draft<G, O>, exec: (G, O) -> Option<G>, valid: G -> bool)
    requires d.state == Active && d.applied != []
    ensures var u := StepIn(Postgres, d, UndoOp(d.revision), exec, valid);
            var r := StepIn(Postgres, u, RedoOp(u.revision), exec, valid);
            && r == d.(revision := d.revision + 2, geometry := Last(d.applied).before)
            && (r.geometry == d.geometry <==> d.geometry == Last(d.applied).before)
  {
    var u := StepIn(Postgres, d, UndoOp(d.revision), exec, valid);
    assert Front(u.undone) == d.undone && Front(d.applied) + [Last(d.applied)] == d.applied;
  }
}
