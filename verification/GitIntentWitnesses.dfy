/** Runs that reach the situations in which the protocol falls short. */
module GitIntentWitnesses {
  import opened Outcomes
  import opened Objects
  import opened Refs
  import opened Policy
  import opened PushValidation
  import opened GitIntents
  import opened GitIntentSafety
  import opened GitIntentTheorems
  import PR = PullRequestRefs

  ghost predicate Reachable(c: Config, w: World) {
    exists run :: IsRun(c, run) && run[|run| - 1] == w
  }

  lemma ReachInitial(c: Config, w: World)
    requires Init(c, w)
    ensures Reachable(c, w)
  {
    assert IsRun(c, [w]);
  }

  lemma ReachNext(c: Config, w: World, s: Step)
    requires Reachable(c, w) && Enabled(c, w, s)
    ensures Reachable(c, Effect(c, w, s))
  {
    hide Enabled, Effect, Init;
    var run :| IsRun(c, run) && run[|run| - 1] == w;
    ExtendRun(c, run, s);
    assert IsRun(c, run + [Effect(c, w, s)]);
  }

  predicate CanEdit(w: World, id: IntentId, edit: RefEdit) {
    w.job == Idle && id !in w.intents && WellFormed([edit]) && AtInitial(w.refs, [edit])
  }

  function Row(edit: RefEdit, state: IntentState, pack: Option<PackName>, applied: nat, merge: Option<MergeOf>): Intent {
    Intent([edit], state, pack, applied, merge)
  }

  // The last of several updates of one row is the one that counts.
  lemma Overwrites(rows: map<IntentId, Intent>, id: IntentId, a: Intent, b: Intent)
    ensures rows[id := a][id := b] == rows[id := b]
  {
  }

  lemma Begins(c: Config, w: World, id: IntentId, edit: RefEdit, merge: Option<MergeOf>) returns (w': World)
    requires Reachable(c, w) && CanEdit(w, id, edit) && Accepted(w.pulls, Row(edit, Pending, None, 0, merge))
    ensures Reachable(c, w') && w' == w.(intents := w.intents[id := Row(edit, Pending, None, 0, merge)], job := Begun(id))
    ensures Present(w') == Present(w) && TargetOf(w.refs, edit.name) == edit.before
  {
    assert [edit][0] == edit;
    ReachNext(c, w, Begin(id, [edit], merge));
    w' := w.(intents := w.intents[id := Row(edit, Pending, None, 0, merge)], job := Begun(id));
  }

  lemma Marks(c: Config, w: World, id: IntentId, edit: RefEdit, pack: Option<PackName>, merge: Option<MergeOf>) returns (w': World)
    requires Reachable(c, w) && w.job == Filed(id, pack) && id in w.intents && w.intents[id] == Row(edit, Pending, None, 0, merge)
    ensures Reachable(c, w') && w' == w.(intents := w.intents[id := Row(edit, Promoted, pack, 0, merge)], job := Applying(id))
  {
    hide Reachable;
    ReachNext(c, w, Mark);
    w' := Effect(c, w, Mark);
  }

  lemma Applies(c: Config, w: World, id: IntentId, edit: RefEdit, merge: Option<MergeOf>) returns (w': World)
    requires Reachable(c, w) && w.job == Applying(id) && id in w.intents && w.intents[id] == Row(edit, Promoted, None, 0, merge)
    requires TargetOf(w.refs, edit.name) == edit.before && edit.after.Some?
    ensures Reachable(c, w')
    ensures w' == w.(refs := w.refs[edit.name := edit.after.value], published := w.published + {edit.after.value},
                  intents := w.intents[id := Row(edit, Promoted, None, 1, merge)])
  {
    hide Reachable;
    ReachNext(c, w, Apply);
    w' := Effect(c, w, Apply);
  }

  // A push has placed its index and not its pack.
  lemma PushPlaces(c: Config, w: World, id: IntentId, edit: RefEdit, access: Access, name: PackName, objects: set<ObjectId>)
    returns (w': World)
    requires Reachable(c, w) && CanEdit(w, id, edit)
    requires name !in w.packs && name !in w.indexes && Validated(c, Present(w) + objects, access, [edit])
    ensures Reachable(c, w')
    ensures w' == w.(indexes := w.indexes + {name}, intents := w.intents[id := Row(edit, Pending, None, 0, None)],
                  job := Indexed(id, name, objects))
  {
    hide Reachable, Validated, WellFormed, AtInitial, CanEdit;
    var w1 := Begins(c, w, id, edit, None);
    ReachNext(c, w1, PlaceIndex(access, name, objects));
    w' := w1.(indexes := w.indexes + {name}, job := Indexed(id, name, objects));
  }

  lemma PacksAndFails(c: Config, w: World, id: IntentId, name: PackName, objects: set<ObjectId>, edit: RefEdit)
    returns (halted: World)
    requires Reachable(c, w) && w.job == Indexed(id, name, objects) && id in w.intents && w.intents[id] == Row(edit, Pending, None, 0, None)
    ensures Reachable(c, halted)
    ensures halted == w.(packs := w.packs[name := objects], intents := w.intents[id := Row(edit, Promoted, Some(name), 0, None)], job := Halted)
  {
    hide Reachable;
    ReachNext(c, w, PlacePack);
    var w1 := w.(packs := w.packs[name := objects], job := Filed(id, Some(name)));
    var w2 := Marks(c, w1, id, edit, Some(name), None);
    ReachNext(c, w2, Fail);
    halted := w2.(job := Halted);
  }

  lemma GoesOn(c: Config, w: World) returns (w': World)
    requires Reachable(c, w) && w.job == Halted
    ensures Reachable(c, w') && w' == w.(job := Idle)
  {
    ReachNext(c, w, GoOn);
    w' := w.(job := Idle);
  }

  // A push fails its reference transaction after marking its row, and the recovery after it fails too.
  lemma PushIsLeft(c: Config, w: World, id: IntentId, edit: RefEdit, access: Access, name: PackName, objects: set<ObjectId>)
    returns (halted: World, w': World)
    requires Reachable(c, w) && CanEdit(w, id, edit)
    requires name !in w.packs && name !in w.indexes && Validated(c, Present(w) + objects, access, [edit])
    ensures Reachable(c, halted) && Reachable(c, w') && halted == w'.(job := Halted)
    ensures w' == w.(packs := w.packs[name := objects], indexes := w.indexes + {name},
                  intents := w.intents[id := Row(edit, Promoted, Some(name), 0, None)])
  {
    assert w.job == Idle;
    hide Reachable, Validated, CanEdit, Present, Enabled, Effect;
    var w1 := PushPlaces(c, w, id, edit, access, name, objects);
    halted := PacksAndFails(c, w1, id, name, objects, edit);
    w' := GoesOn(c, halted);
    Overwrites(w.intents, id, Row(edit, Pending, None, 0, None), Row(edit, Promoted, Some(name), 0, None));
  }

  lemma FilesNothing(c: Config, w: World, id: IntentId, edit: RefEdit, access: Access) returns (w': World)
    requires Reachable(c, w) && w.job == Begun(id) && id in w.intents && w.intents[id] == Row(edit, Pending, None, 0, None)
    requires Validated(c, Present(w), access, [edit])
    ensures Reachable(c, w') && w' == w.(job := Filed(id, None))
  {
    hide Reachable, Validated, Present;
    ReachNext(c, w, FileNothing(access));
    w' := Effect(c, w, FileNothing(access));
  }

  lemma Completes(c: Config, w: World, id: IntentId, edit: RefEdit) returns (w': World)
    requires Reachable(c, w) && w.job == Applying(id) && id in w.intents && w.intents[id] == Row(edit, Promoted, None, 1, None)
    ensures Reachable(c, w') && w' == w.(intents := w.intents[id := Row(edit, Completed, None, 1, None)], job := Idle)
  {
    hide Reachable;
    ReachNext(c, w, GitIntents.Step.Complete);
    w' := Effect(c, w, GitIntents.Step.Complete);
  }

  // A push that needs no new objects and succeeds.
  lemma PushSucceeds(c: Config, w: World, id: IntentId, edit: RefEdit, access: Access) returns (w': World)
    requires Reachable(c, w) && CanEdit(w, id, edit) && edit.after.Some?
    requires Validated(c, Present(w), access, [edit])
    ensures Reachable(c, w')
    ensures w' == w.(refs := w.refs[edit.name := edit.after.value], published := w.published + {edit.after.value},
                  intents := w.intents[id := Row(edit, Completed, None, 1, None)])
  {
    var w1 := Begins(c, w, id, edit, None);
    assert w.job == Idle;
    hide Reachable, Validated, CanEdit, Present, Enabled, Effect;
    var w2 := FilesNothing(c, w1, id, edit, access);
    var w3 := Marks(c, w2, id, edit, None, None);
    Overwrites(w.intents, id, Row(edit, Pending, None, 0, None), Row(edit, Promoted, None, 0, None));
    var w4 := Applies(c, w3, id, edit, None);
    Overwrites(w.intents, id, Row(edit, Promoted, None, 0, None), Row(edit, Promoted, None, 1, None));
    w' := Completes(c, w4, id, edit);
    Overwrites(w.intents, id, Row(edit, Promoted, None, 1, None), Row(edit, Completed, None, 1, None));
  }

  lemma FilesMerge(c: Config, w: World, id: IntentId, edit: RefEdit, merge: MergeOf, head: ObjectId) returns (w': World)
    requires Reachable(c, w) && w.job == Begun(id) && id in w.intents && w.intents[id] == Row(edit, Pending, None, 0, Some(merge))
    requires MergeValidated(c, w, [edit], head)
    ensures Reachable(c, w') && w' == w.(job := Filed(id, None))
  {
    hide Reachable, MergeValidated;
    ReachNext(c, w, FileMerge(head));
    w' := Effect(c, w, FileMerge(head));
  }

  lemma ClosesAndLeaves(c: Config, w: World, id: IntentId, edit: RefEdit, merge: MergeOf) returns (w': World)
    requires Reachable(c, w) && w.job == Applying(id) && id in w.intents && w.intents[id] == Row(edit, Promoted, None, 1, Some(merge))
    requires merge.number in w.pulls && w.pulls[merge.number].state == PR.Open
    ensures Reachable(c, w') && id in w'.intents && Refused(w', w'.intents[id])
    ensures w' == w.(pulls := w.pulls[merge.number := w.pulls[merge.number].(state := PR.Closed)], job := Idle)
  {
    hide Reachable;
    ReachNext(c, w, SetPull(merge.number, PR.Closed));
    var w1 := Effect(c, w, SetPull(merge.number, PR.Closed));
    ReachNext(c, w1, Leave);
    w' := w1.(job := Idle);
  }

  // A merge moves its branch, its pull request is closed before the row is completed, and the merge ends with an error.
  lemma MergeIsLeft(c: Config, w: World, id: IntentId, edit: RefEdit, merge: MergeOf, head: ObjectId) returns (w': World)
    requires Reachable(c, w) && CanEdit(w, id, edit) && edit.after.Some?
    requires Accepted(w.pulls, Row(edit, Pending, None, 0, Some(merge))) && MergeValidated(c, w, [edit], head)
    ensures Reachable(c, w') && id in w'.intents && Refused(w', w'.intents[id])
    ensures w' == w.(refs := w.refs[edit.name := edit.after.value], published := w.published + {edit.after.value},
                  pulls := w.pulls[merge.number := w.pulls[merge.number].(state := PR.Closed)],
                  intents := w.intents[id := Row(edit, Promoted, None, 1, Some(merge))])
  {
    assert w.job == Idle;
    hide Reachable, CanEdit;
    var w1 := Begins(c, w, id, edit, Some(merge));
    assert MergeValidated(c, w1, [edit], head);
    hide MergeValidated, Present, Enabled, Effect;
    var w2 := FilesMerge(c, w1, id, edit, merge, head);
    var w3 := Marks(c, w2, id, edit, None, Some(merge));
    Overwrites(w.intents, id, Row(edit, Pending, None, 0, Some(merge)), Row(edit, Promoted, None, 0, Some(merge)));
    var w4 := Applies(c, w3, id, edit, Some(merge));
    Overwrites(w.intents, id, Row(edit, Promoted, None, 0, Some(merge)), Row(edit, Promoted, None, 1, Some(merge)));
    w' := ClosesAndLeaves(c, w4, id, edit, merge);
  }

  lemma Reopens(c: Config, w: World, number: nat) returns (w': World)
    requires Reachable(c, w) && number in w.pulls && w.pulls[number].state == PR.Closed
    ensures Reachable(c, w') && w' == w.(pulls := w.pulls[number := w.pulls[number].(state := PR.Open)])
  {
    hide Reachable;
    ReachNext(c, w, SetPull(number, PR.Open));
    w' := Effect(c, w, SetPull(number, PR.Open));
  }

  lemma Crashes(c: Config, w: World) returns (w': World)
    requires Reachable(c, w)
    ensures Reachable(c, w') && w' == w.(job := Down)
  {
    hide Reachable;
    ReachNext(c, w, Crash);
    w' := Effect(c, w, Crash);
  }

  // How recovery decides about a promoted row of one reference.
  lemma Decides(refs: RefStore, edit: RefEdit, pack: Option<PackName>, applied: nat, merge: Option<MergeOf>)
    requires edit.before != edit.after
    ensures Decide(refs, Row(edit, Promoted, pack, applied, merge)) ==
            if TargetOf(refs, edit.name) == edit.after then Keep else Discard
  {
    assert AtProposed(refs, [edit]) <==> TargetOf(refs, edit.name) == edit.after by {
      assert [edit][0] == edit;
    }
    assert AtInitial(refs, [edit]) <==> TargetOf(refs, edit.name) == edit.before by {
      assert [edit][0] == edit;
    }
  }

  lemma KeepsMerge(c: Config, w: World, id: IntentId, edit: RefEdit, merge: MergeOf) returns (w': World)
    requires Reachable(c, w) && w.job == Down && id in w.intents && w.intents[id] == Row(edit, Promoted, None, 1, Some(merge))
    requires edit.before != edit.after && TargetOf(w.refs, edit.name) == edit.after && Accepted(w.pulls, w.intents[id])
    ensures Reachable(c, w')
    ensures w' == w.(intents := w.intents[id := Row(edit, Completed, None, 1, Some(merge))],
                  pulls := w.pulls[merge.number := w.pulls[merge.number].(state := PR.Merged)])
  {
    hide Reachable, Decide;
    Decides(w.refs, edit, None, 1, Some(merge));
    ReachNext(c, w, RecoverKeep(id));
    w' := Effect(c, w, RecoverKeep(id));
  }

  lemma DiscardsMerge(c: Config, w: World, id: IntentId, edit: RefEdit, merge: MergeOf) returns (w': World)
    requires Reachable(c, w) && w.job == Down && id in w.intents && w.intents[id] == Row(edit, Promoted, None, 1, Some(merge))
    requires edit.before != edit.after && TargetOf(w.refs, edit.name) != edit.after
    ensures Reachable(c, w') && w' == w.(intents := w.intents[id := Row(edit, Abandoned, None, 1, Some(merge))])
  {
    hide Reachable, Decide;
    Decides(w.refs, edit, None, 1, Some(merge));
    ReachNext(c, w, RecoverDiscard(id));
    w' := Effect(c, w, RecoverDiscard(id));
  }

  lemma RemovesPack(c: Config, w: World, id: IntentId, edit: RefEdit, name: PackName) returns (w': World)
    requires Reachable(c, w) && w.job == Down && id in w.intents && w.intents[id] == Row(edit, Promoted, Some(name), 0, None)
    requires edit.before != edit.after && TargetOf(w.refs, edit.name) != edit.after
    ensures Reachable(c, w') && w' == w.(packs := w.packs - {name})
  {
    hide Reachable, Decide;
    Decides(w.refs, edit, Some(name), 0, None);
    ReachNext(c, w, RemovePack(id));
    w' := Effect(c, w, RemovePack(id));
  }

  // A history of three commits over an empty tree.
  const HISTORY: Repository :=
    map[1 := Commit(9, []), 2 := Commit(9, [1]), 3 := Commit(9, [2]), 9 := Tree([])]
  const OPEN_SERVER: Config := Config(HISTORY, false, "refs/heads/main")
  const MAIN := "refs/heads/main"
  const NEXT := "refs/heads/next"
  const COPY := "refs/heads/copy"
  const LAST := "refs/heads/last"
  const NOBODY := Access("active", "public", None)

  // Sets that hold the history below what they hold.
  predicate ClosedHistory(present: set<ObjectId>) {
    (3 in present ==> 2 in present) && (2 in present ==> 1 in present) && 9 in present
  }

  ghost function Inside(present: set<ObjectId>): iset<ObjectId> {
    iset x | x in present && x in HISTORY
  }

  lemma HistoryIsClosed(present: set<ObjectId>, repo: Repository)
    requires ClosedHistory(present) && PartOf(repo, HISTORY)
    ensures forall x, y :: x in Inside(present) && x in Links(repo) && y in Links(repo)[x] ==> y in Inside(present)
  {
    forall x, y | x in Inside(present) && x in Links(repo) && y in Links(repo)[x]
      ensures y in Inside(present)
    {
      assert Links(repo)[x] == LinksOf(HISTORY[x]);
    }
  }

  lemma HistoryHolds(present: set<ObjectId>, id: ObjectId)
    requires ClosedHistory(present) && id in present && id in HISTORY
    ensures Held(OPEN_SERVER, present, id) && SoundBelow(Visible(OPEN_SERVER, present), id)
  {
    hide Reaches, Links, ClosedHistory;
    var visible := Visible(OPEN_SERVER, present);
    HistoryIsClosed(present, HISTORY);
    HistoryIsClosed(present, visible);
    forall x | Reaches(Links(HISTORY), id, x)
      ensures x in present
    {
      ClosedUnderEdges(Links(HISTORY), Inside(present), id, x);
    }
    forall x | Reaches(Links(visible), id, x)
      ensures x in visible && visible[x] != Damaged
    {
      ClosedUnderEdges(Links(visible), Inside(present), id, x);
    }
  }

  // On a server without accounts everything but a forced update is permitted.
  lemma CreatingIsValid(present: set<ObjectId>, name: RefName, id: ObjectId)
    requires ClosedHistory(present) && id in present && id in {1, 2, 3}
    ensures Validated(OPEN_SERVER, present, NOBODY, [RefEdit(name, None, Some(id))])
  {
    hide SoundBelow;
    HistoryHolds(present, id);
    var edit := RefEdit(name, None, Some(id));
    assert SoundEdit(Visible(OPEN_SERVER, present), edit, Create) && Permitted(PolicyFor(OPEN_SERVER, NOBODY), name, Create);
    assert EditPasses(OPEN_SERVER, present, NOBODY, edit);
  }

  lemma Parenthood(repo: Repository, child: ObjectId, parent: ObjectId)
    requires child in repo && repo[child].Commit? && parent in repo[child].parents
    ensures Ancestor(repo, parent, child)
  {
    ReachesSelf(Parents(repo), child);
    ReachesStep(Parents(repo), child, child, parent);
  }

  lemma AdvancingIsValid(present: set<ObjectId>, name: RefName)
    requires ClosedHistory(present) && 3 in present && IsBranch(name)
    ensures Validated(OPEN_SERVER, present, NOBODY, [RefEdit(name, Some(2), Some(3))])
  {
    hide SoundBelow, Reaches;
    HistoryHolds(present, 3);
    var edit := RefEdit(name, Some(2), Some(3));
    var visible := Visible(OPEN_SERVER, present);
    Parenthood(visible, 3, 2);
    assert !IsTag(name) by {
      assert name[5] == 'h' && "refs/tags/"[5] == 't';
    }
    assert SoundEdit(visible, edit, FastForward) && Permitted(PolicyFor(OPEN_SERVER, NOBODY), name, FastForward);
    assert EditPasses(OPEN_SERVER, present, NOBODY, edit);
  }

  lemma Creatable(w: World, id: IntentId, name: RefName, target: ObjectId)
    requires w.job == Idle && id !in w.intents && IsBranch(name) && name !in w.refs
    ensures CanEdit(w, id, RefEdit(name, None, Some(target)))
  {
  }

  lemma Names()
    ensures IsBranch(MAIN) && IsBranch(NEXT) && IsBranch(COPY) && IsBranch(LAST)
    ensures MAIN != NEXT && MAIN != COPY && NEXT != COPY && LAST != MAIN && LAST != NEXT && LAST != COPY
  {
    assert MAIN[11] == 'm' && NEXT[11] == 'n' && COPY[11] == 'c' && LAST[11] == 'l';
  }

  const EMPTY: World := World(map[], map[], {}, {}, map[], map[], {}, Idle)

  lemma EmptyIsReachable()
    ensures Reachable(OPEN_SERVER, EMPTY) && Present(EMPTY) == {}
  {
    ReachInitial(OPEN_SERVER, EMPTY);
  }

  lemma CrashStrands(c: Config, w: World)
    requires w.job.Indexed? && w.job.name in w.indexes && w.job.name !in w.packs && forall i :: !RecordsPack(w, i)
    ensures Enabled(c, w, Crash) && Stray(Effect(c, w, Crash), w.job.name)
  {
    var w' := Effect(c, w, Crash);
    forall i | RecordsPack(w', i)
      ensures false
    {
      assert RecordsPack(w, i);
    }
  }

  /** A run reaches the moment between the two renames of a promotion, and a crash there strands the index. */
  lemma StrandingIsReachable() returns (w: World)
    ensures Reachable(OPEN_SERVER, w) && w.job.Indexed? && Enabled(OPEN_SERVER, w, Crash)
    ensures Stray(Effect(OPEN_SERVER, w, Crash), w.job.name)
  {
    hide Reachable, Validated, CanEdit, Present, Enabled, Effect, IsBranch, Stray;
    EmptyIsReachable();
    Names();
    Creatable(EMPTY, 0, MAIN, 1);
    CreatingIsValid({1, 9}, MAIN, 1);
    assert Present(EMPTY) + {1, 9} == {1, 9};
    w := PushPlaces(OPEN_SERVER, EMPTY, 0, RefEdit(MAIN, None, Some(1)), NOBODY, 7, {1, 9});
    CrashStrands(OPEN_SERVER, w);
  }

  // Two branches, the second one commit ahead, and an open pull request between them.
  const BEFORE_MERGE: World :=
    World(map[MAIN := 1, NEXT := 2], map[], {}, {1, 2, 9}, map[1 := PR.Pull(PR.Open, [PR.Revision(1, 2)])], map[], {1, 2}, Idle)

  lemma BeforeMergeIsReachable()
    ensures Reachable(OPEN_SERVER, BEFORE_MERGE) && Present(BEFORE_MERGE) == {1, 2, 9}
  {
    Names();
    HistoryHolds({1, 2, 9}, 1);
    HistoryHolds({1, 2, 9}, 2);
    assert BEFORE_MERGE.refs.Values == {1, 2} by {
      assert BEFORE_MERGE.refs[MAIN] == 1 && BEFORE_MERGE.refs[NEXT] == 2;
    }
    assert Present(BEFORE_MERGE) == {1, 2, 9};
    hide Held, Present;
    ReachInitial(OPEN_SERVER, BEFORE_MERGE);
  }

  const MERGE_EDIT: RefEdit := RefEdit(MAIN, Some(1), Some(2))

  // The merge has moved its branch, its row is promoted, and its pull request is closed.
  const AFTER_MERGE: World :=
    World(map[MAIN := 2, NEXT := 2], map[], {}, {1, 2, 9}, map[1 := PR.Pull(PR.Closed, [PR.Revision(1, 2)])],
          map[0 := Row(MERGE_EDIT, Promoted, None, 1, Some(MergeOf(1, 1)))], {1, 2}, Idle)

  lemma MergeCanBegin()
    ensures CanEdit(BEFORE_MERGE, 0, MERGE_EDIT) && MergeValidated(OPEN_SERVER, BEFORE_MERGE, [MERGE_EDIT], 2)
  {
    hide IsBranch, CanEdit, Ancestor;
    Names();
    Parenthood(HISTORY, 2, 1);
    Movable(BEFORE_MERGE, 0, MERGE_EDIT);
  }

  lemma MergeIsRefused()
    ensures Refused(AFTER_MERGE, AFTER_MERGE.intents[0]) && RecoverAll(AFTER_MERGE) == (AFTER_MERGE, Some(PullRequestState(0)))
  {
    hide RecoverAll;
    assert TargetOf(AFTER_MERGE.refs, MAIN) == Some(2) by {
      Names();
    }
    FirstIsRefused(AFTER_MERGE, 0);
  }

  /** A run leaves a merge refused: its branch is moved, its pull request closed, and recovery fails at it. */
  lemma RefusedMergeIsReachable()
    ensures Reachable(OPEN_SERVER, AFTER_MERGE) && Refused(AFTER_MERGE, AFTER_MERGE.intents[0])
    ensures RecoverAll(AFTER_MERGE) == (AFTER_MERGE, Some(PullRequestState(0)))
  {
    hide Reachable, MergeValidated, CanEdit, Present, Enabled, Effect, RecoverAll, IsBranch;
    BeforeMergeIsReachable();
    MergeCanBegin();
    MergeIsRefused();
    Names();
    var w' := MergeIsLeft(OPEN_SERVER, BEFORE_MERGE, 0, MERGE_EDIT, MergeOf(1, 1), 2);
    assert w'.refs == AFTER_MERGE.refs && w'.published == AFTER_MERGE.published;
    assert w'.intents == AFTER_MERGE.intents && w'.pulls == AFTER_MERGE.pulls;
  }

  lemma FirstIsRefused(w: World, id: IntentId)
    requires id in w.intents && w.intents[id].state == Promoted && |w.intents[id].edits| == 1 && !Accepted(w.pulls, w.intents[id])
    requires w.intents[id].edits[0].before != w.intents[id].edits[0].after
    requires TargetOf(w.refs, w.intents[id].edits[0].name) == w.intents[id].edits[0].after
    requires forall i :: i in w.intents ==> id <= i
    ensures RecoverAll(w) == (w, Some(PullRequestState(id)))
  {
    OneReferenceDecides(w, id);
    assert id in Leftover(w);
    assert First(w) == id;
    assert AtProposed(w.refs, w.intents[id].edits) && !AtInitial(w.refs, w.intents[id].edits);
  }

  const COPY_EDIT: RefEdit := RefEdit(COPY, None, Some(3))
  const LAST_EDIT: RefEdit := RefEdit(LAST, None, Some(3))

  // A push that brought commit 3 has failed, and the recovery after it stopped at the refused merge.
  const PUSH_LEFT: World :=
    AFTER_MERGE.(packs := map[7 := {3}], indexes := {7},
    intents := AFTER_MERGE.intents[1 := Row(COPY_EDIT, Promoted, Some(7), 0, None)])

  lemma LeftPushHolds()
    ensures Present(PUSH_LEFT) == {1, 2, 3, 9} && Present(AFTER_MERGE) + {3} == {1, 2, 3, 9}
  {
    assert Present(AFTER_MERGE) == {1, 2, 9};
    PlacedPackIsPresent(AFTER_MERGE.(indexes := {7}), PUSH_LEFT, 7, {3});
    assert Present(AFTER_MERGE.(indexes := {7})) == {1, 2, 9};
  }

  lemma LeftPushIsReachable()
    ensures Reachable(OPEN_SERVER, PUSH_LEFT.(job := Halted)) && Reachable(OPEN_SERVER, PUSH_LEFT)
    ensures RecoverAll(PUSH_LEFT.(job := Halted)) == (PUSH_LEFT.(job := Halted), Some(PullRequestState(0)))
  {
    hide Reachable, Validated, CanEdit, Present, Enabled, Effect, IsBranch, RecoverAll;
    LeftPushHolds();
    RefusedMergeIsReachable();
    Names();
    Creatable(AFTER_MERGE, 1, COPY, 3);
    CreatingIsValid({1, 2, 3, 9}, COPY, 3);
    var halted, w' := PushIsLeft(OPEN_SERVER, AFTER_MERGE, 1, COPY_EDIT, NOBODY, 7, {3});
    assert w' == PUSH_LEFT;
    FirstIsRefused(halted, 0);
  }

  // Meanwhile another push has published commit 3, and the pull request is open again.
  lemma PublishedIsReachable() returns (w: World)
    ensures Reachable(OPEN_SERVER, w)
    ensures w == PUSH_LEFT.(refs := PUSH_LEFT.refs[LAST := 3], published := PUSH_LEFT.published + {3},
                         intents := PUSH_LEFT.intents[2 := Row(LAST_EDIT, Completed, None, 1, None)],
                         pulls := map[1 := PR.Pull(PR.Open, [PR.Revision(1, 2)])])
  {
    hide Reachable, Validated, CanEdit, Present, IsBranch, Enabled, Effect, RecoverAll;
    LeftPushHolds();
    LeftPushIsReachable();
    Names();
    Creatable(PUSH_LEFT, 2, LAST, 3);
    CreatingIsValid({1, 2, 3, 9}, LAST, 3);
    var pushed := PushSucceeds(OPEN_SERVER, PUSH_LEFT, 2, LAST_EDIT, NOBODY);
    w := Reopens(OPEN_SERVER, pushed, 1);
  }

  /**
   Without the hypothesis of guarded runs objects are lost: the failed push is
   still as before its edit, recovery discards it and deletes the pack, and a
   branch that another push has created since points to nothing.
   */
  lemma LossIsReachable() returns (w: World)
    ensures Reachable(OPEN_SERVER, w)
    ensures LAST in w.refs && w.refs[LAST] !in Present(w)
  {
    hide Reachable, IsBranch, Enabled, Effect, Present;
    Names();
    var w0 := PublishedIsReachable();
    var w1 := Crashes(OPEN_SERVER, w0);
    var w2 := KeepsMerge(OPEN_SERVER, w1, 0, MERGE_EDIT, MergeOf(1, 1));
    w := RemovesPack(OPEN_SERVER, w2, 1, COPY_EDIT, 7);
    NoPacksNoObjects(w);
  }

  lemma NoPacksNoObjects(w: World)
    requires w.packs == map[]
    ensures Present(w) == w.loose
  {
  }

  const MAIN_EDIT: RefEdit := RefEdit(MAIN, Some(2), Some(3))

  /**
   A merge whose edit took effect is abandoned: a later push moves its branch
   on, and the next recovery finds the branch neither as before nor as proposed.
   */
  lemma AppliedMergeIsAbandoned() returns (w: World)
    ensures Reachable(OPEN_SERVER, w)
    ensures 0 in w.intents && w.intents[0].state == Abandoned && w.intents[0].applied == |w.intents[0].edits| == 1
  {
    hide Reachable, Validated, IsBranch, Enabled, Effect, Present;
    Names();
    LeftPushHolds();
    var w0 := PublishedIsReachable();
    SamePresent(PUSH_LEFT, w0);
    AdvancingIsValid({1, 2, 3, 9}, MAIN);
    Movable(w0, 3, MAIN_EDIT);
    var w1 := PushSucceeds(OPEN_SERVER, w0, 3, MAIN_EDIT, NOBODY);
    var w2 := Crashes(OPEN_SERVER, w1);
    w := DiscardsMerge(OPEN_SERVER, w2, 0, MERGE_EDIT, MergeOf(1, 1));
  }

  lemma SamePresent(a: World, b: World)
    requires a.packs == b.packs && a.indexes == b.indexes && a.loose == b.loose
    ensures Present(a) == Present(b)
  {
  }

  lemma Movable(w: World, id: IntentId, edit: RefEdit)
    requires w.job == Idle && id !in w.intents && IsBranch(edit.name) && edit.before != edit.after
    requires TargetOf(w.refs, edit.name) == edit.before
    ensures CanEdit(w, id, edit)
  {
  }

  lemma Fails(c: Config, w: World) returns (w': World)
    requires Reachable(c, w) && RunsPush(w) && w.job.Begun?
    ensures Reachable(c, w') && w' == w.(job := Halted)
  {
    ReachNext(c, w, Fail);
    w' := w.(job := Halted);
  }

  const RETRIED_EDIT: RefEdit := RefEdit(COPY, None, Some(2))

  // A push has failed before its row was marked, the recovery after it stopped
  // at the refused merge, and the same push has then been made again.
  const RETRIED: World :=
    AFTER_MERGE.(refs := AFTER_MERGE.refs[COPY := 2],
    intents := AFTER_MERGE.intents[1 := Row(RETRIED_EDIT, Pending, None, 0, None)][2 := Row(RETRIED_EDIT, Completed, None, 1, None)])

  lemma RetriedIsReachable()
    ensures Reachable(OPEN_SERVER, RETRIED)
  {
    hide Reachable, Validated, CanEdit, Present, Enabled, Effect, IsBranch, RecoverAll;
    RefusedMergeIsReachable();
    Names();
    Creatable(AFTER_MERGE, 1, COPY, 2);
    var w1 := Begins(OPEN_SERVER, AFTER_MERGE, 1, RETRIED_EDIT, None);
    var w2 := Fails(OPEN_SERVER, w1);
    var w3 := GoesOn(OPEN_SERVER, w2);
    AfterMergeHolds();
    SamePresent(AFTER_MERGE, w3);
    CreatingIsValid({1, 2, 9}, COPY, 2);
    Creatable(w3, 2, COPY, 2);
    var w4 := PushSucceeds(OPEN_SERVER, w3, 2, RETRIED_EDIT, NOBODY);
    assert w4.published == RETRIED.published && w4.refs == RETRIED.refs && w4.intents == RETRIED.intents;
  }

  lemma AfterMergeHolds()
    ensures Present(AFTER_MERGE) == {1, 2, 9}
  {
  }

  /**
   Recovery can be mixed although nothing is half applied: with the pull request
   reopened no row is half applied or refused, and recovery still stops, at the
   row of the push that failed before it was marked.
   */
  lemma RetriedPushIsMixed() returns (w: World)
    ensures Reachable(OPEN_SERVER, w)
    ensures forall i :: i in w.intents ==> !HalfApplied(w.intents[i]) && !Refused(w, w.intents[i])
    ensures 1 in w.intents && w.intents[1].state == Pending && w.intents[1].applied == 0
    ensures RecoverIntent(w, 1) == Failure(MixedRecovery(1)) && RecoverAll(w).1 == Some(MixedRecovery(1))
  {
    hide Reachable, IsBranch, RecoverAll, RecoverIntent;
    RetriedIsReachable();
    Names();
    w := Reopens(OPEN_SERVER, RETRIED, 1);
    OneReferenceDecides(w, 0);
    OneReferenceDecides(w, 1);
    assert Accepted(w.pulls, w.intents[0]);
    FirstThenSecond(w, 0, 1);
  }

  // Recovery that settles the first leftover row and stops at the second.
  lemma FirstThenSecond(w: World, first: IntentId, second: IntentId)
    requires Leftover(w) == {first, second} && first < second
    requires RecoverIntent(w, first).Success?
    requires RecoverIntent(w, second) == Failure(MixedRecovery(second))
    ensures RecoverAll(w).1 == Some(MixedRecovery(second))
  {
    hide RecoverIntent;
    assert First(w) == first;
    var one := RecoverIntent(w, first).value;
    RecoverIntentFrame(w, first);
    RecoveryShrinks(w, first);
    assert Leftover(one) == {second};
    SameTrouble(w, one, second);
    OneLeft(one, second);
  }

  lemma SameTrouble(w: World, w': World, id: IntentId)
    requires id in w.intents && id in w'.intents && w.intents[id] == w'.intents[id] && w.refs == w'.refs
    requires RecoverIntent(w, id) == Failure(MixedRecovery(id))
    ensures RecoverIntent(w', id) == Failure(MixedRecovery(id))
  {
    hide Decide;
  }

}
