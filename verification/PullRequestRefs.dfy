/**
 The intent that keeps refs/pull/N/head in step with the recorded revisions of
 a pull request.  Unlike the intent of a push it rolls forward: recovery writes
 the reference if the crash came before it.  Pushes, the closing and reopening
 of pull requests, and the completion of a merge by the recovery of a push, run
 at any moment in between.
 */
module PullRequestRefs {
  import opened Outcomes
  import opened Objects
  import opened Refs
  import Decimals

  type IntentId = nat

  datatype PullState = Open | Closed | Merged

  // The two branches as a revision found them.
  datatype Revision = Revision(base: ObjectId, head: ObjectId)

  // The completed revisions, oldest first.
  datatype Pull = Pull(state: PullState, revisions: seq<Revision>)

  datatype IntentState = Pending | Completed | Abandoned

  // `before` is absent for the first revision of a new pull request.
  datatype RefIntent = RefIntent(number: nat, before: Option<ObjectId>, proposed: Revision, state: IntentState)

  // `merging` are the pull requests with a merge that has begun and is not settled.
  datatype Forge = Forge(
    refs: RefStore,
    pulls: map<nat, Pull>,
    intents: map<IntentId, RefIntent>,
    merging: set<nat>,
    nextNumber: nat)

  function PullRef(number: nat): RefName {
    "refs/pull/" + Decimals.Text(number) + "/head"
  }

  function LastRevision(pull: Pull): Option<Revision> {
    if pull.revisions == [] then None else Some(pull.revisions[|pull.revisions| - 1])
  }

  function LastHead(pull: Pull): Option<ObjectId> {
    if pull.revisions == [] then None else Some(pull.revisions[|pull.revisions| - 1].head)
  }

  predicate NonePending(f: Forge) {
    forall i :: i in f.intents ==> f.intents[i].state != Pending
  }

  predicate IsPending(f: Forge, id: IntentId) {
    id in f.intents && f.intents[id].state == Pending
  }

  datatype Step =
    | Push(name: RefName, target: Option<ObjectId>)
    | SetState(number: nat, state: PullState)
    | StartMerge(number: nat)
    | MarkMerged(number: nat)
    | DropMerge(number: nat)
    | BeginOpen(id: IntentId, proposed: Revision)
    | BeginRevise(id: IntentId, number: nat, proposed: Revision)
    | WriteRef(id: IntentId)
    | Complete(id: IntentId)
    | Abandon(id: IntentId)

  // The store refuses to complete a revision of a pull request that is not open.
  predicate StoreCompletes(f: Forge, intent: RefIntent) {
    if intent.before.None? then intent.number !in f.pulls
    else intent.number in f.pulls && f.pulls[intent.number].state == Open && LastHead(f.pulls[intent.number]) == intent.before
  }

  predicate Enabled(f: Forge, s: Step) {
    match s
    // Neither a push nor a merge can name anything but branches and tags.
    case Push(name, _) => IsBranch(name) || IsTag(name)
    // Closing and reopening takes no lock.
    case SetState(number, state) =>
      number in f.pulls && f.pulls[number].state != Merged && state != Merged && f.pulls[number].state != state
    // Opening, revising and merging are serialised, and each recovers first.
    case StartMerge(number) => NonePending(f) && number in f.pulls && f.pulls[number].state == Open
    // The recovery of a push settles merges and takes no lock of pull requests.
    case MarkMerged(number) => number in f.merging && number in f.pulls && f.pulls[number].state == Open
    case DropMerge(number) => number in f.merging
    case BeginOpen(id, _) => NonePending(f) && id !in f.intents
    case BeginRevise(id, number, proposed) =>
      NonePending(f) && id !in f.intents && number in f.pulls && f.pulls[number].state == Open
      && LastRevision(f.pulls[number]) != Some(proposed)
    case WriteRef(id) => IsPending(f, id) && TargetOf(f.refs, PullRef(f.intents[id].number)) == f.intents[id].before
    case Complete(id) =>
      && IsPending(f, id) && StoreCompletes(f, f.intents[id])
      && TargetOf(f.refs, PullRef(f.intents[id].number)) == Some(f.intents[id].proposed.head)
    // A reference found at the new head counts as written, also when that is the old head.
    case Abandon(id) =>
      && IsPending(f, id) && f.intents[id].before != Some(f.intents[id].proposed.head)
      && TargetOf(f.refs, PullRef(f.intents[id].number)) == f.intents[id].before
  }

  function Effect(f: Forge, s: Step): Forge
    requires Enabled(f, s)
  {
    match s
    case Push(name, target) => f.(refs := if target.Some? then f.refs[name := target.value] else f.refs - {name})
    case SetState(number, state) => f.(pulls := f.pulls[number := f.pulls[number].(state := state)])
    case StartMerge(number) => f.(merging := f.merging + {number})
    case MarkMerged(number) => f.(pulls := f.pulls[number := f.pulls[number].(state := Merged)], merging := f.merging - {number})
    case DropMerge(number) => f.(merging := f.merging - {number})
    case BeginOpen(id, proposed) =>
      f.(intents := f.intents[id := RefIntent(f.nextNumber, None, proposed, Pending)], nextNumber := f.nextNumber + 1)
    case BeginRevise(id, number, proposed) =>
      f.(intents := f.intents[id := RefIntent(number, LastHead(f.pulls[number]), proposed, Pending)])
    case WriteRef(id) => f.(refs := f.refs[PullRef(f.intents[id].number) := f.intents[id].proposed.head])
    case Complete(id) =>
      var i := f.intents[id];
      var pull :=
        if i.before.None? then Pull(Open, [i.proposed])
        else f.pulls[i.number].(revisions := f.pulls[i.number].revisions + [i.proposed]);
      f.(pulls := f.pulls[i.number := pull], intents := f.intents[id := i.(state := Completed)])
    case Abandon(id) => f.(intents := f.intents[id := f.intents[id].(state := Abandoned)])
  }

  ghost predicate Next(f: Forge, f': Forge) {
    exists s :: Enabled(f, s) && f' == Effect(f, s)
  }

  ghost predicate IsRun(run: seq<Forge>) {
    && |run| > 0 && run[0].pulls == map[] && run[0].intents == map[] && run[0].merging == {}
    && (forall n :: PullRef(n) !in run[0].refs)
    && forall i :: 0 <= i < |run| - 1 ==> Next(run[i], run[i + 1])
  }

  lemma ExtendRun(run: seq<Forge>, s: Step)
    requires IsRun(run) && Enabled(run[|run| - 1], s)
    ensures IsRun(run + [Effect(run[|run| - 1], s)])
  {
    var f' := Effect(run[|run| - 1], s);
    var longer := run + [f'];
    forall i | 0 <= i < |longer| - 1
      ensures Next(longer[i], longer[i + 1])
    {
      if i < |run| - 1 {
        assert Next(run[i], run[i + 1]);
      } else {
        assert longer[i] == run[|run| - 1] && longer[i + 1] == f';
      }
    }
  }

  // The head the database has recorded for a number.
  function Recorded(f: Forge, number: nat): Option<ObjectId> {
    if number in f.pulls then LastHead(f.pulls[number]) else None
  }

  predicate PendingOn(f: Forge, id: IntentId, number: nat) {
    IsPending(f, id) && f.intents[id].number == number
  }

  ghost predicate RowsSound(f: Forge) {
    && (forall i, j :: IsPending(f, i) && IsPending(f, j) ==> i == j)
    && (forall n :: n in f.pulls ==> n < f.nextNumber && f.pulls[n].revisions != [])
    && (forall i :: i in f.intents ==> f.intents[i].number < f.nextNumber)
    && (forall i :: IsPending(f, i) ==> f.intents[i].before == Recorded(f, f.intents[i].number))
  }

  // The reference of a pull request is as recorded, or as a pending intent wants it.
  ghost predicate RefAgrees(f: Forge, n: nat) {
    || TargetOf(f.refs, PullRef(n)) == Recorded(f, n)
    || exists i :: PendingOn(f, i, n) && TargetOf(f.refs, PullRef(n)) == Some(f.intents[i].proposed.head)
  }

  ghost predicate Inv(f: Forge) {
    RowsSound(f) && forall n :: RefAgrees(f, n)
  }

  lemma PullRefsDiffer(m: nat, n: nat)
    requires PullRef(m) == PullRef(n)
    ensures m == n
  {
    var a, b := Decimals.Text(m), Decimals.Text(n);
    assert |PullRef(m)| == 10 + |a| + 5 && |PullRef(n)| == 10 + |b| + 5;
    assert a == PullRef(m)[10..10 + |a|];
    assert b == PullRef(n)[10..10 + |b|];
    Decimals.TextInjective(m, n);
  }

  /** No branch or tag is a pull-request reference. */
  lemma PullRefsAreApart(number: nat, name: RefName)
    requires IsBranch(name) || IsTag(name)
    ensures PullRef(number) != name
  {
    assert IsPull(PullRef(number));
    PullsAreApart(PullRef(number), name);
  }

  lemma PushKeepsRefs(f: Forge, s: Step, n: nat)
    requires s.Push? && Enabled(f, s) && RefAgrees(f, n)
    ensures RefAgrees(Effect(f, s), n)
  {
    var f' := Effect(f, s);
    PullRefsAreApart(n, s.name);
    assert TargetOf(f'.refs, PullRef(n)) == TargetOf(f.refs, PullRef(n));
    if i :| PendingOn(f, i, n) && TargetOf(f.refs, PullRef(n)) == Some(f.intents[i].proposed.head) {
      assert PendingOn(f', i, n);
    }
  }

  lemma WriteKeepsRefs(f: Forge, s: Step, n: nat)
    requires s.WriteRef? && Enabled(f, s) && RefAgrees(f, n)
    ensures RefAgrees(Effect(f, s), n)
  {
    var f' := Effect(f, s);
    if n == f.intents[s.id].number {
      assert PendingOn(f', s.id, n);
    } else {
      if PullRef(n) == PullRef(f.intents[s.id].number) {
        PullRefsDiffer(n, f.intents[s.id].number);
      }
      if i :| PendingOn(f, i, n) && TargetOf(f.refs, PullRef(n)) == Some(f.intents[i].proposed.head) {
        assert PendingOn(f', i, n);
      }
    }
  }

  // Steps of the database alone.
  lemma RowsKeepRefs(f: Forge, s: Step, n: nat)
    requires !s.Push? && !s.WriteRef? && Enabled(f, s) && Inv(f)
    ensures RefAgrees(Effect(f, s), n)
  {
    var f' := Effect(f, s);
    assert RefAgrees(f, n);
    assert f'.refs == f.refs;
    if i :| PendingOn(f, i, n) && TargetOf(f.refs, PullRef(n)) == Some(f.intents[i].proposed.head) {
      if (s.Complete? || s.Abandon?) && s.id == i {
        assert s.Abandon? ==> TargetOf(f.refs, PullRef(n)) == Recorded(f, n);
      } else {
        assert PendingOn(f', i, n);
      }
    } else if s.Complete? {
      assert PendingOn(f, s.id, f.intents[s.id].number);
    }
  }

  lemma RowsKept(f: Forge, s: Step)
    requires Enabled(f, s) && RowsSound(f)
    ensures RowsSound(Effect(f, s))
  {
    var f' := Effect(f, s);
    forall i | IsPending(f', i)
      ensures if s.BeginOpen? || s.BeginRevise? then i == s.id else IsPending(f, i) && f.intents[i] == f'.intents[i]
      ensures f'.intents[i].before == Recorded(f', f'.intents[i].number)
    {
      if s.BeginOpen? || s.BeginRevise? {
        assert i != s.id ==> IsPending(f, i);
      } else {
        assert IsPending(f, i);
      }
    }
    forall i, j | IsPending(f', i) && IsPending(f', j)
      ensures i == j
    {
    }
  }

  lemma StepKeepsInv(f: Forge, s: Step)
    requires Enabled(f, s) && Inv(f)
    ensures Inv(Effect(f, s))
  {
    RowsKept(f, s);
    forall n
      ensures RefAgrees(Effect(f, s), n)
    {
      assert RefAgrees(f, n);
      if s.Push? {
        PushKeepsRefs(f, s, n);
      } else if s.WriteRef? {
        WriteKeepsRefs(f, s, n);
      } else {
        RowsKeepRefs(f, s, n);
      }
    }
  }

  lemma {:induction false} RunKeepsInv(run: seq<Forge>, k: nat)
    requires IsRun(run) && k < |run|
    ensures Inv(run[k])
  {
    if k > 0 {
      RunKeepsInv(run, k - 1);
      assert Next(run[k - 1], run[k - 1 + 1]);
      var s :| Enabled(run[k - 1], s) && run[k] == Effect(run[k - 1], s);
      StepKeepsInv(run[k - 1], s);
    }
  }

  /**
   In every state of every interleaving, refs/pull/N/head is the head of the
   last completed revision or the head of the one pending intent.
   */
  lemma PullRefIsRecordedOrPending(run: seq<Forge>, k: nat, n: nat)
    requires IsRun(run) && k < |run|
    ensures || TargetOf(run[k].refs, PullRef(n)) == Recorded(run[k], n)
            || exists i :: PendingOn(run[k], i, n) && TargetOf(run[k].refs, PullRef(n)) == Some(run[k].intents[i].proposed.head)
    ensures NonePending(run[k]) ==> TargetOf(run[k].refs, PullRef(n)) == Recorded(run[k], n)
  {
    RunKeepsInv(run, k);
    assert RefAgrees(run[k], n);
  }

  lemma StepKeepsRevisions(f: Forge, s: Step, n: nat)
    requires Enabled(f, s) && n in f.pulls
    ensures n in Effect(f, s).pulls && f.pulls[n].revisions <= Effect(f, s).pulls[n].revisions
  {
    hide PullRef;
  }

  /** Over every run the recorded revisions of a pull request only grow at their end. */
  lemma {:induction false} RevisionsOnlyGrow(run: seq<Forge>, k: nat, j: nat, n: nat)
    requires IsRun(run) && k <= j < |run| && n in run[k].pulls
    ensures n in run[j].pulls && run[k].pulls[n].revisions <= run[j].pulls[n].revisions
    decreases j - k
  {
    hide Enabled, Effect, PullRef;
    if k < j {
      RevisionsOnlyGrow(run, k, j - 1, n);
      assert Next(run[j - 1], run[j - 1 + 1]);
      var s :| Enabled(run[j - 1], s) && run[j] == Effect(run[j - 1], s);
      StepKeepsRevisions(run[j - 1], s, n);
    }
  }

  predicate IsRecorded(f: Forge, id: IntentId) {
    && id in f.intents && f.intents[id].number in f.pulls
    && f.intents[id].proposed in f.pulls[f.intents[id].number].revisions
  }

  lemma StepRecords(f: Forge, s: Step, id: IntentId)
    requires Enabled(f, s) && id in Effect(f, s).intents && Effect(f, s).intents[id].state == Completed
    requires id in f.intents && f.intents[id].state == Completed ==> IsRecorded(f, id)
    ensures IsRecorded(Effect(f, s), id)
  {
    hide PullRef;
    if id in f.intents && f.intents[id].state == Completed {
      StepKeepsRevisions(f, s, f.intents[id].number);
      assert Effect(f, s).intents[id] == f.intents[id];
    }
  }

  /** Over every run a completed row stands for a recorded revision of its pull request. */
  lemma {:induction false} CompletedIsRecorded(run: seq<Forge>, k: nat, id: IntentId)
    requires IsRun(run) && k < |run| && id in run[k].intents && run[k].intents[id].state == Completed
    ensures IsRecorded(run[k], id)
  {
    hide Enabled, Effect, PullRef, IsRecorded;
    if k > 0 {
      if id in run[k - 1].intents && run[k - 1].intents[id].state == Completed {
        CompletedIsRecorded(run, k - 1, id);
      }
      assert Next(run[k - 1], run[k - 1 + 1]);
      var s :| Enabled(run[k - 1], s) && run[k] == Effect(run[k - 1], s);
      StepRecords(run[k - 1], s, id);
    }
  }

  datatype RecoveryError = MixedRecovery | IntentStateError

  // Recovery of one pending intent: the state it leaves, and how it ended.
  function Recover(f: Forge, id: IntentId): (Forge, Result<(), RecoveryError>)
    requires IsPending(f, id)
  {
    var i := f.intents[id];
    var current := TargetOf(f.refs, PullRef(i.number));
    if current == Some(i.proposed.head) then
      if StoreCompletes(f, i) then (Effect(f, Complete(id)), Success(())) else (f, Failure(IntentStateError))
    else if current == i.before then
      var written := Effect(f, WriteRef(id));
      if StoreCompletes(written, i) then (Effect(written, Complete(id)), Success(())) else (written, Failure(IntentStateError))
    else (f, Failure(MixedRecovery))
  }

  // Whether the database still accepts the revision an intent stands for.
  predicate Acceptable(f: Forge, i: RefIntent) {
    i.before.Some? ==> i.number in f.pulls && f.pulls[i.number].state == Open
  }

  lemma CompletionSettles(f: Forge, id: IntentId)
    requires Inv(f) && Enabled(f, Complete(id))
    ensures NonePending(Effect(f, Complete(id)))
    ensures Recorded(Effect(f, Complete(id)), f.intents[id].number) == Some(f.intents[id].proposed.head)
  {
    var f' := Effect(f, Complete(id));
    forall i | i in f'.intents
      ensures f'.intents[i].state != Pending
    {
      assert IsPending(f, i) ==> i == id;
    }
  }

  lemma RecoverySound(f: Forge, id: IntentId)
    requires Inv(f) && IsPending(f, id)
    ensures var (f', r) := Recover(f, id);
            var i := f.intents[id];
            && r != Failure(MixedRecovery)
            && (r.Success? <==> Acceptable(f, i))
            && TargetOf(f'.refs, PullRef(i.number)) == Some(i.proposed.head)
            && (r.Success? ==> NonePending(f') && Recorded(f', i.number) == Some(i.proposed.head))
  {
    hide RefAgrees, PullRef, NonePending;
    var i := f.intents[id];
    PendingRefKnown(f, id);
    if TargetOf(f.refs, PullRef(i.number)) == Some(i.proposed.head) {
      if StoreCompletes(f, i) {
        CompletionSettles(f, id);
      }
    } else {
      var written := Effect(f, WriteRef(id));
      StepKeepsInv(f, WriteRef(id));
      if StoreCompletes(written, i) {
        CompletionSettles(written, id);
      }
    }
  }

  lemma PendingRefKnown(f: Forge, id: IntentId)
    requires Inv(f) && IsPending(f, id)
    ensures var i := f.intents[id];
            && i.before == Recorded(f, i.number)
            && TargetOf(f.refs, PullRef(i.number)) in {i.before, Some(i.proposed.head)}
            && (StoreCompletes(f, i) <==> Acceptable(f, i))
  {
    var i := f.intents[id];
    assert RefAgrees(f, i.number);
    if TargetOf(f.refs, PullRef(i.number)) != Recorded(f, i.number) {
      var j :| PendingOn(f, j, i.number) && TargetOf(f.refs, PullRef(i.number)) == Some(f.intents[j].proposed.head);
      assert IsPending(f, j) && j == id;
    }
  }

  /**
   Recovery never meets a mixed state.  It rolls forward exactly when the pull
   request is new or still open: closing takes no lock, so a pull request
   closed under a pending revision makes every recovery fail until it is
   reopened.
   */
  lemma RecoveryRollsForward(run: seq<Forge>, k: nat, id: IntentId)
    requires IsRun(run) && k < |run| && IsPending(run[k], id)
    ensures var (f', r) := Recover(run[k], id);
            var i := run[k].intents[id];
            && r != Failure(MixedRecovery)
            && (r.Success? <==> Acceptable(run[k], i))
            && TargetOf(f'.refs, PullRef(i.number)) == Some(i.proposed.head)
            && (r.Success? ==> NonePending(f') && Recorded(f', i.number) == Some(i.proposed.head))
  {
    RunKeepsInv(run, k);
    RecoverySound(run[k], id);
  }

  /**
   While a pending revision meets a closed pull request, no opening, revision or
   merge of any pull request can begin; reopening it lets recovery through.
   */
  lemma ClosedPullBlocksOthers(run: seq<Forge>, k: nat, id: IntentId, s: Step)
    requires IsRun(run) && k < |run| && IsPending(run[k], id)
    requires run[k].intents[id].before.Some? && run[k].intents[id].number in run[k].pulls
    requires run[k].pulls[run[k].intents[id].number].state == Closed
    ensures s.BeginOpen? || s.BeginRevise? || s.StartMerge? || s.Complete? ==> !Enabled(run[k], s)
    ensures var reopen := SetState(run[k].intents[id].number, Open);
            && Enabled(run[k], reopen)
            && IsPending(Effect(run[k], reopen), id)
            && Recover(Effect(run[k], reopen), id).1.Success?
  {
    hide RefAgrees, PullRef, Recover, IsRun;
    var f := run[k];
    RunKeepsInv(run, k);
    PendingRefKnown(f, id);
    var reopen := SetState(f.intents[id].number, Open);
    StepKeepsInv(f, reopen);
    RecoverySound(Effect(f, reopen), id);
    assert s.Complete? && IsPending(f, s.id) ==> s.id == id;
  }

  // A revision whose reference is written while its pull request is merged.
  predicate Stuck(f: Forge, id: IntentId) {
    && IsPending(f, id)
    && var i := f.intents[id];
       && i.before.Some?
       && i.number in f.pulls && f.pulls[i.number].state == Merged
       && TargetOf(f.refs, PullRef(i.number)) == Some(i.proposed.head)
  }

  lemma StuckStays(f: Forge, s: Step, id: IntentId)
    requires Inv(f) && Enabled(f, s) && Stuck(f, id)
    ensures Stuck(Effect(f, s), id)
    ensures !s.BeginOpen? && !s.BeginRevise? && !s.StartMerge? && !s.Complete?
  {
    hide PullRef, RefAgrees;
    var i := f.intents[id];
    assert forall j :: IsPending(f, j) ==> j == id;
    if s.Push? {
      PullRefsAreApart(i.number, s.name);
    }
  }

  /**
   A merged pull request is never reopened, so a revision stuck under one stays
   pending in every continuation of the run, recovery always fails, and no
   opening, revision or merge of any pull request ever begins again.
   */
  lemma {:induction false} MergedPullBlocksForever(run: seq<Forge>, k: nat, j: nat, id: IntentId)
    requires IsRun(run) && k <= j < |run| && Stuck(run[k], id)
    ensures Stuck(run[j], id) && Recover(run[j], id).1 == Failure(IntentStateError)
    ensures forall s: Step :: s.BeginOpen? || s.BeginRevise? || s.StartMerge? ==> !Enabled(run[j], s)
    decreases j - k
  {
    hide Enabled, Effect, Inv;
    if k < j {
      MergedPullBlocksForever(run, k, j - 1, id);
      RunKeepsInv(run, j - 1);
      assert Next(run[j - 1], run[j - 1 + 1]);
      var s :| Enabled(run[j - 1], s) && run[j] == Effect(run[j - 1], s);
      StuckStays(run[j - 1], s, id);
    }
    RunKeepsInv(run, j);
    forall s: Step | s.BeginOpen? || s.BeginRevise? || s.StartMerge?
      ensures !Enabled(run[j], s)
    {
      if Enabled(run[j], s) {
        StuckStays(run[j], s, id);
      }
    }
  }

  ghost predicate Reachable(f: Forge) {
    exists run :: IsRun(run) && run[|run| - 1] == f
  }

  lemma ReachNext(f: Forge, s: Step)
    requires Reachable(f) && Enabled(f, s)
    ensures Reachable(Effect(f, s))
  {
    var run :| IsRun(run) && run[|run| - 1] == f;
    ExtendRun(run, s);
    assert IsRun(run + [Effect(f, s)]);
  }

  lemma ReachInitial(refs: RefStore)
    requires forall n :: PullRef(n) !in refs
    ensures Reachable(Forge(refs, map[], map[], {}, 1))
  {
    assert IsRun([Forge(refs, map[], map[], {}, 1)]);
  }

  // A new pull request, opened without incident.
  lemma ReachOpened(first: Revision) returns (f: Forge)
    ensures Reachable(f)
    ensures f == Forge(map[PullRef(1) := first.head], map[1 := Pull(Open, [first])], map[0 := RefIntent(1, None, first, Completed)], {}, 2)
  {
    hide Reachable, PullRef;
    var f0 := Forge(map[], map[], map[], {}, 1);
    ReachInitial(map[]);
    ReachNext(f0, BeginOpen(0, first));
    var f1 := f0.(intents := map[0 := RefIntent(1, None, first, Pending)], nextNumber := 2);
    ReachNext(f1, WriteRef(0));
    var f2 := f1.(refs := map[PullRef(1) := first.head]);
    ReachNext(f2, Complete(0));
    f := f2.(pulls := map[1 := Pull(Open, [first])], intents := map[0 := RefIntent(1, None, first, Completed)]);
    assert f == Effect(f2, Complete(0));
  }

  /** The situation is reachable: a merge left unsettled is completed by a push's recovery while a revision is under way. */
  lemma MergeOvertakesRevision(first: Revision, second: Revision) returns (f: Forge)
    requires first != second
    ensures Reachable(f) && Stuck(f, 1)
  {
    hide Reachable, PullRef;
    var f0 := ReachOpened(first);
    ReachNext(f0, StartMerge(1));
    var f1 := f0.(merging := {1});
    ReachNext(f1, BeginRevise(1, 1, second));
    var f2 := f1.(intents := f1.intents[1 := RefIntent(1, Some(first.head), second, Pending)]);
    ReachNext(f2, WriteRef(1));
    var f3 := f2.(refs := f2.refs[PullRef(1) := second.head]);
    ReachNext(f3, MarkMerged(1));
    f := f3.(pulls := map[1 := Pull(Merged, [first])], merging := {});
    assert f == Effect(f3, MarkMerged(1));
  }

}
