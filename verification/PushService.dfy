/**
 The operations themselves: a push, a merge and the recovery of both, as they
 change the disk and the database.  Each takes the number of durable steps after
 which the process dies and the errors it meets, and each is shown to be a run
 of the step system, so the guarantees over runs are guarantees about this code.
 */
module PushService {
  import opened Outcomes
  import opened Objects
  import opened Refs
  import opened Policy
  import opened PushValidation
  import opened GitIntents
  import opened GitIntentSafety
  import opened GitIntentTheorems
  import PR = PullRequestRefs
  import Collections
  import Histories
  import DeltaDepth

  datatype ServiceError =
    | Died
    | BadCommands
    | StaleRef
    | DeltaChain(depth: DeltaDepth.DepthError)
    | Rejected(error: PushError)
    | PackMismatch
    | PackRename
    | RefTransaction
    | Recovery(trouble: Trouble)
    | StaleRevision
    | NotMergeable
    | UnreadableHistory
    | NotOpen
    | MergeCommit
    | RefUpdate
    | CompletionRefused

  // A pack as it lies in quarantine: its checksum name, its objects and how they are stored.
  datatype Incoming = Incoming(name: PackName, objects: set<ObjectId>, layout: DeltaDepth.Pack)

  // How the second rename of a promotion ends; after an error the first is taken back, if that works.
  datatype Rename = Renamed | NotRenamed(cleaned: bool)

  // How a reference update ends: an error may come before or after the reference is written.
  datatype Update = Works | FailsBefore | FailsAfter

  lemma ChecksValidate(c: Config, present: set<ObjectId>, access: Access, edits: seq<RefEdit>, changes: seq<RefChange>)
    requires |edits| == |changes|
    requires forall i :: 0 <= i < |edits| ==> SoundEdit(Visible(c, present), edits[i], changes[i])
    requires forall i :: 0 <= i < |edits| ==> Permitted(PolicyFor(c, access), edits[i].name, changes[i])
    ensures Validated(c, present, access, edits)
  {
    forall i | 0 <= i < |edits|
      ensures EditPasses(c, present, access, edits[i])
    {
      assert SoundEdit(Visible(c, present), edits[i], changes[i]) && Permitted(PolicyFor(c, access), edits[i].name, changes[i]);
    }
  }

  lemma PolicyRefuses(c: Config, present: set<ObjectId>, access: Access, edits: seq<RefEdit>, changes: seq<RefChange>)
    requires |edits| == |changes|
    requires forall i :: 0 <= i < |edits| ==> SoundEdit(Visible(c, present), edits[i], changes[i])
    requires exists i :: 0 <= i < |edits| && !Permitted(PolicyFor(c, access), edits[i].name, changes[i])
    ensures !Validated(c, present, access, edits)
  {
    var i :| 0 <= i < |edits| && !Permitted(PolicyFor(c, access), edits[i].name, changes[i]);
    assert !EditPasses(c, present, access, edits[i]);
  }

  // A whole recovery that succeeds completes a push exactly when its references are as proposed.
  lemma {:induction false} PushIsSettled(w: World, id: IntentId)
    requires id in Leftover(w) && w.intents[id].merge.None? && RecoverAll(w).1 == None
    ensures id in RecoverAll(w).0.intents
    ensures RecoverAll(w).0.intents[id] == w.intents[id].(state := if Decide(w.refs, w.intents[id]) == Keep then Completed else Abandoned)
    decreases |Leftover(w)|
  {
    hide Decide;
    var first := First(w);
    var one := RecoverIntent(w, first).value;
    RecoverIntentFrame(w, first);
    RecoveryShrinks(w, first);
    if first == id {
      SettledStays(one, id);
    } else {
      PushIsSettled(one, id);
    }
  }

  // The merge commit the Git library prepares: a commit on top of both sides
  // that is none of them, with everything below its tree among what is written.
  ghost predicate MergeObjects(c: Config, w: World, base: ObjectId, head: ObjectId, prepared: ObjectId, tree: ObjectId,
                               written: set<ObjectId>) {
    && prepared in c.universe && c.universe[prepared] == Commit(tree, [base, head])
    && prepared != base && prepared in written
    && Held(c, Present(w) + written, tree)
  }

  // When the requested method fits the two commits.
  ghost predicate Mergeable(visible: Repository, base: ObjectId, head: ObjectId, fastForward: bool, conflicts: bool) {
    && !Ancestor(visible, head, base)
    && if fastForward then Ancestor(visible, base, head)
       else Histories.Related(visible, base, head) && !Ancestor(visible, base, head) && !conflicts
  }

  lemma WrittenIsPresent(c: Config, w: World, w': World, written: set<ObjectId>, tree: ObjectId)
    requires Held(c, Present(w) + written, tree)
    requires w' == w.(loose := w.loose + written)
    ensures written <= Present(w') && Held(c, Present(w'), tree)
  {
    PresentMonotone(w, None, w', None);
    HeldMonotone(c, Present(w) + written, Present(w'), tree);
  }

  /** A fast-forward merge always records two different targets, the later descending from the earlier. */
  lemma FastForwardMoves(c: Config, w: World, base: ObjectId, head: ObjectId)
    requires var visible := Visible(c, Present(w)); Ancestor(visible, base, head) && !Ancestor(visible, head, base)
    ensures base != head && Ancestor(c.universe, base, head)
  {
    var visible := Visible(c, Present(w));
    ReachesSelf(Parents(visible), base);
    ReachesMonotone(Parents(visible), Parents(c.universe), head, base);
  }

  // The refusals of a merge that has written nothing yet.
  predicate NeverBegan(e: ServiceError) {
    e == StaleRevision || e == NotMergeable || e == UnreadableHistory || e == NotOpen
  }

  // Why a merge is refused before anything is written.
  ghost predicate MergeRefused(c: Config, w: World, merge: MergeOf, baseRef: RefName, headRef: RefName, base: ObjectId, head: ObjectId,
                               fastForward: bool, maximum: nat, conflicts: bool, e: ServiceError) {
    var stale := TargetOf(w.refs, baseRef) != Some(base) || TargetOf(w.refs, headRef) != Some(head);
    if !AtRevision(w.pulls, merge) then e == NotOpen
    else if stale then e == StaleRevision
    else
      || (e == NotMergeable && !Mergeable(Visible(c, Present(w)), base, head, fastForward, conflicts))
      || (e == UnreadableHistory && exists error :: Histories.ComparisonFails(Visible(c, Present(w)), base, head, maximum, error))
  }

  predicate EndsMerge(e: ServiceError) {
    e == Died || e == MergeCommit || e == RefUpdate || e == CompletionRefused
  }

  // How a push ends once it has begun.
  ghost predicate PushEnds(before: World, after: World, id: IntentId, edits: seq<RefEdit>, failsAfter: Option<nat>,
                           r: Result<(), ServiceError>) {
    && (after.job == if r == Failure(Died) then Down else Idle)
    && (r.Success? ==> failsAfter == None && AtProposed(after.refs, edits) && id in after.intents && after.intents[id].state == Completed)
    // Recovery stopped at a row; if none was left over before, at this one, half applied.
    && (r.Failure? && r.error.Recovery? ==>
          var trouble := r.error.trouble;
          && trouble.id in Leftover(after) && RecoverIntent(after, trouble.id) == Failure(trouble)
          && (NoneIncomplete(before) ==>
                && trouble == MixedRecovery(id) && HalfApplied(after.intents[id])
                && failsAfter == Some(after.intents[id].applied) && after.intents[id].edits == edits))
    // Recovery settled everything: the push was undone, or all its edits had been applied.
    && (r.Failure? && !r.error.Recovery? && r.error != Died ==>
          && NoneIncomplete(after) && id in after.intents
          && (r.error == RefTransaction ==> failsAfter.Some? && (failsAfter.value == 0 || failsAfter.value >= |edits|))
          && if r.error == RefTransaction && failsAfter.value >= |edits|
             then after.intents[id].state == Completed && AtProposed(after.refs, edits)
             else after.intents[id].state == Abandoned && after.refs == before.refs)
  }

  // Why a push that has begun is refused or fails.
  ghost predicate Cause(c: Config, w: World, edits: seq<RefEdit>, access: Access, incoming: Option<Incoming>, rename: Rename,
                        failsAfter: Option<nat>, e: ServiceError) {
    if e.DeltaChain? then
      incoming.Some? && exists o :: o in incoming.value.layout.headers && !DeltaDepth.Shallow(incoming.value.layout, o)
    else if e.Rejected? then
      var present := Present(w) + Brought(incoming);
      !Validated(c, present, access, edits) || exists i :: 0 <= i < |edits| && EditFails(Visible(c, present), edits[i], e.error)
    else if e == PackMismatch then incoming.Some? && (incoming.value.name in w.packs) != (incoming.value.name in w.indexes)
    else if e == PackRename then incoming.Some? && rename.NotRenamed?
    else e == RefTransaction && failsAfter.Some?
  }

  // Why a push that has begun ends with an error: it dies early enough, or
  // something failed, and then recovery came through or stopped at a row.
  ghost predicate FailureJustified(c: Config, w: World, edits: seq<RefEdit>, access: Access, incoming: Option<Incoming>, rename: Rename,
                                   failsAfter: Option<nat>, dies: nat, diesAgain: nat, e: ServiceError) {
    if e == Died then dies < |edits| + 4 || diesAgain < 3 * (|Leftover(w)| + 1)
    else exists first :: Cause(c, w, edits, access, incoming, rename, failsAfter, first) && (e == first || e.Recovery?)
  }

  lemma PackedAlike(w: World, w': World)
    requires w'.packs == w.packs && w'.indexes == w.indexes && w'.loose == w.loose
    ensures Present(w) == Present(w')
  {
  }

  lemma CauseStays(c: Config, w: World, w': World, edits: seq<RefEdit>, access: Access, incoming: Option<Incoming>, rename: Rename,
                   failsAfter: Option<nat>, e: ServiceError)
    requires w'.packs == w.packs && w'.indexes == w.indexes && w'.loose == w.loose
    ensures Cause(c, w, edits, access, incoming, rename, failsAfter, e) <==> Cause(c, w', edits, access, incoming, rename, failsAfter, e)
  {
    hide Present, Validated, EditFails;
    PackedAlike(w, w');
  }

  lemma OneMoreLeftover(before: World, w: World, id: IntentId)
    requires id in w.intents && w.intents == before.intents[id := w.intents[id]]
    ensures |Leftover(w)| <= |Leftover(before)| + 1
  {
    Collections.SubsetSize(Leftover(w), Leftover(before) + {id});
  }

  function Brought(incoming: Option<Incoming>): set<ObjectId> {
    if incoming.Some? then incoming.value.objects else {}
  }

  lemma EndsDiffer(e: ServiceError)
    ensures !(NeverBegan(e) && EndsMerge(e))
  {
  }

  // A merge starts only from an open pull request at its last revision.
  predicate AtRevision(pulls: map<nat, PR.Pull>, merge: MergeOf) {
    merge.number in pulls && pulls[merge.number].state == PR.Open && |pulls[merge.number].revisions| == merge.revision
  }

  // How a merge ends.
  ghost predicate MergeEnds(refs: RefStore, after: World, id: IntentId, edits: seq<RefEdit>, merge: MergeOf,
                            update: Update, closes: bool, r: Result<(), ServiceError>) {
    && OnlyMoves(refs, after.refs, edits)
    && (r == Failure(Died) <==> after.job == Down) && (r != Failure(Died) <==> after.job == Idle)
    && (r.Success? ==>
          && update == Works && AtProposed(after.refs, edits) && id in after.intents && after.intents[id].state == Completed
          && merge.number in after.pulls && after.pulls[merge.number].state == PR.Merged)
    && (r == Failure(RefUpdate) ==>
          && update != Works && id in after.intents
          && if update == FailsBefore then after.refs == refs && after.intents[id].state == Abandoned
             else AtProposed(after.refs, edits) && after.intents[id].state == Completed)
    && (r == Failure(CompletionRefused) ==>
          && closes && AtProposed(after.refs, edits)
          && id in after.intents && after.intents[id].state == Promoted && Refused(after, after.intents[id]))
  }

  lemma NothingMoved(w: World, id: IntentId, edits: seq<RefEdit>, merge: MergeOf, update: Update, closes: bool, e: ServiceError)
    requires if e == Died then w.job == Down else w.job == Idle && (NeverBegan(e) || e == MergeCommit)
    ensures MergeEnds(w.refs, w, id, edits, merge, update, closes, Failure(e))
  {
  }

  function AtMost(n: nat, limit: nat): nat {
    if n < limit then n else limit
  }

  lemma JobDoesNotMatter(w: World, id: IntentId)
    requires id in w.intents && RecoverIntent(w, id).Failure?
    ensures RecoverIntent(w.(job := Idle), id) == RecoverIntent(w, id)
  {
    hide Decide, Accepted;
  }

  lemma SameHistoryStart(w: World)
    ensures SameHistory(w, w)
  {
  }

  // The last part of a recovery, after which the server is down, idle or as it was.
  lemma SameHistoryEnds(a: World, b: World, c: World)
    requires SameHistory(a, b) && (c == b || SameHistory(b.(job := c.job), c))
    ensures SameHistory(a.(job := c.job), c)
  {
  }

  lemma AppliedIsProposed(refs: RefStore, i: Intent)
    requires Progressed(refs, i)
    ensures i.applied == |i.edits| ==> AtProposed(refs, i.edits)
  {
  }

  // What recovery makes of the one row a failed push adds.
  lemma AfterRecovery(w: World, before: World, id: IntentId)
    requires id in Leftover(w) && w.intents[id].merge.None? && RowShaped(w.intents[id]) && Progressed(w.refs, w.intents[id])
    requires w.intents == before.intents[id := w.intents[id]] && id !in before.intents
    ensures RecoverAll(w).1 == None ==>
              var row := w.intents[id];
              && (row.applied == 0 || row.applied == |row.edits|)
              && id in RecoverAll(w).0.intents
              && RecoverAll(w).0.intents[id].state == if row.applied == 0 then Abandoned else Completed
    ensures NoneIncomplete(before) && RecoverAll(w).1.Some? ==>
              RecoverAll(w) == (w, Some(MixedRecovery(id))) && HalfApplied(w.intents[id])
  {
    DecisionFits(w.refs, w.intents[id]);
    if RecoverAll(w).1 == None {
      hide RecoverAll;
      PushIsSettled(w, id);
      NeverMixed(w, id);
    }
    if NoneIncomplete(before) {
      assert Leftover(w) == {id};
      hide RecoverAll;
      OneLeft(w, id);
    }
  }

  // A recovery that settles everything met no mixed state.
  lemma {:induction false} NeverMixed(w: World, id: IntentId)
    requires id in Leftover(w) && RecoverAll(w).1 == None
    ensures Decide(w.refs, w.intents[id]) != Mixed
    decreases |Leftover(w)|
  {
    hide Decide;
    var first := First(w);
    RecoverIntentFrame(w, first);
    RecoveryShrinks(w, first);
    if first != id {
      NeverMixed(RecoverIntent(w, first).value, id);
    }
  }

  lemma MergeObjectsStay(c: Config, w: World, w': World, base: ObjectId, head: ObjectId, prepared: ObjectId, tree: ObjectId,
                         written: set<ObjectId>)
    requires w'.packs == w.packs && w'.indexes == w.indexes && w'.loose == w.loose
    ensures MergeObjects(c, w, base, head, prepared, tree, written) ==> MergeObjects(c, w', base, head, prepared, tree, written)
  {
    assert Present(w) == Present(w');
  }

  class Server {
    const c: Config
    var world: World
    ghost var run: seq<World>

    ghost predicate Valid()
      reads this
    {
      IsRun(c, run) && run[|run| - 1] == world
    }

    constructor (c: Config, world: World)
      requires Init(c, world)
      ensures this.c == c && this.world == world && Valid()
    {
      this.c := c;
      this.world := world;
      this.run := [world];
    }

    // One durable step.
    method Advance(ghost s: Step, next: World)
      requires Valid() && Enabled(c, world, s) && next == Effect(c, world, s)
      modifies this
      ensures Valid() && world == next && run == old(run) + [next]
    {
      hide Enabled, Effect, Init;
      ExtendRun(c, run, s);
      world := next;
      run := run + [next];
    }

    method Die()
      requires Valid()
      modifies this
      ensures Valid() && world == old(world).(job := Down) && run == old(run) + [world]
    {
      Advance(Crash, world.(job := Down));
    }

    // A push fails inside the running server.
    method Halt()
      requires Valid() && RunsPush(world) && !world.job.Indexed?
      modifies this
      ensures Valid() && world == old(world).(job := Halted) && run == old(run) + [world]
    {
      Advance(Fail, world.(job := Halted));
    }

    ghost method Facts()
      requires Valid()
      ensures Inv(c, world)
    {
      RunKeepsInv(c, run, |run| - 1);
    }

    /**
     Settles the leftover rows in their order, or stops at the first it cannot
     settle, or dies on the way; it never writes a reference.
     */
    method RecoverIncomplete(dies: nat) returns (r: Result<(), ServiceError>)
      requires Valid() && Recovering(world)
      modifies this
      ensures Valid() && old(run) <= run
      ensures SameHistory(old(world).(job := world.job), world)
      ensures r.Success? ==> RecoverAll(old(world)) == (world.(job := old(world).job), None) && world.job == Idle
      ensures r.Failure? ==> r.error == Died || r.error.Recovery?
      ensures r.Failure? && r.error.Recovery? ==> RecoverAll(old(world)) == (world, Some(r.error.trouble))
      ensures r == Failure(Died) ==> world.job == Down && dies < 3 * |Leftover(old(world))|
    {
      hide IsRun, Enabled, Effect, RecoverIntent, Init, SameHistory;
      var left: nat := dies;
      SameHistoryStart(world);
      while Leftover(world) != {}
        invariant Valid() && Recovering(world) && old(run) <= run && world.job == old(world).job
        invariant SameHistory(old(world), world) && RecoverAll(world) == RecoverAll(old(world))
        invariant |Leftover(world)| <= |Leftover(old(world))|
        invariant dies <= left + 3 * (|Leftover(old(world))| - |Leftover(world)|)
        decreases |Leftover(world)|
      {
        var id := First(world);
        ghost var before := world;
        left, r := RecoverRow(id, left);
        if r.Failure? {
          SameHistoryEnds(old(world), before, world);
          return;
        }
        RecoverIntentFrame(before, id);
        RecoveryShrinks(before, id);
        assert |Leftover(world)| == |Leftover(before)| - 1;
        SameHistoryTwice(old(world), before, world);
      }
      NothingLeft(world);
      SameHistoryStart(world.(job := Idle));
      SameHistoryEnds(old(world), world, world.(job := Idle));
      FinishRecovery();
      r := Success(());
    }

    method FinishRecovery()
      requires Valid() && Recovering(world) && NoneIncomplete(world)
      modifies this
      ensures Valid() && run == old(run) + [world] && world == old(world).(job := Idle)
    {
      Advance(RecoveryDone, world.(job := Idle));
    }

    method RecoverRow(id: IntentId, dies: nat) returns (left: nat, r: Result<(), ServiceError>)
      requires Valid() && Recovering(world) && id in Leftover(world)
      modifies this
      ensures Valid() && old(run) <= run
      ensures r.Success? ==> RecoverIntent(old(world), id) == Success(world) && world.job == old(world).job
      ensures r.Failure? ==> r.error == Died || r.error.Recovery?
      ensures r.Failure? && r.error.Recovery? ==> RecoverIntent(old(world), id) == Failure(r.error.trouble) && world == old(world)
      ensures r == Failure(Died) ==> world.job == Down && SameHistory(old(world).(job := Down), world) && dies < 3
      ensures r.Success? ==> dies <= left + 3
    {
      hide Decide, IsRun;
      var row := world.intents[id];
      left := dies;
      match Decide(world.refs, row) {
        case Mixed =>
          return left, Failure(Recovery(MixedRecovery(id)));
        case Keep =>
          if !Accepted(world.pulls, row) {
            return left, Failure(Recovery(PullRequestState(id)));
          }
          if left == 0 {
            Die();
            return left, Failure(Died);
          }
          left := left - 1;
          Advance(RecoverKeep(id), world.(intents := SetIntent(world, id, Completed, row.pack), pulls := Settled(world.pulls, row)));
        case Drop =>
          if left == 0 {
            Die();
            return left, Failure(Died);
          }
          left := left - 1;
          Advance(RecoverDrop(id), world.(intents := SetIntent(world, id, Abandoned, row.pack)));
        case Discard =>
          var died;
          left, died := DiscardRow(id, left);
          if died {
            return left, Failure(Died);
          }
      }
      r := Success(());
    }

    // Deletes the pack a promoted intent recorded, file before index, then abandons the row.
    method DiscardRow(id: IntentId, dies: nat) returns (left: nat, died: bool)
      requires Valid() && Recovers(world, id, Discard)
      modifies this
      ensures Valid() && old(run) <= run
      ensures !died ==> RecoverIntent(old(world), id) == Success(world)
      ensures died ==> world.job == Down && SameHistory(old(world).(job := Down), world) && world.intents == old(world.intents)
      ensures var steps := if old(world).intents[id].pack.Some? then 3 else 1;
              (died <==> dies < steps) && (!died ==> left == dies - steps)
    {
      hide Decide, IsRun, Enabled, Effect;
      var row := world.intents[id];
      left := dies;
      if row.pack.Some? {
        left, died := RemoveFiles(id, row.pack.value, left);
        if died {
          return;
        }
      } else {
        assert world.packs - {} == world.packs && world.indexes - {} == world.indexes;
      }
      if left == 0 {
        Die();
        return left, true;
      }
      left := left - 1;
      AbandonRow(id);
      died := false;
    }

    method RemoveFiles(id: IntentId, name: PackName, dies: nat) returns (left: nat, died: bool)
      requires Valid() && Recovers(world, id, Discard) && world.intents[id].pack == Some(name)
      modifies this
      ensures Valid() && old(run) <= run
      ensures !died ==> world == old(world).(packs := old(world).packs - {name}, indexes := old(world).indexes - {name})
      ensures died ==> world.job == Down && SameHistory(old(world).(job := Down), world) && world.intents == old(world.intents)
      ensures (died <==> dies < 2) && (!died ==> left == dies - 2)
    {
      hide Decide, IsRun;
      left := dies;
      if left == 0 {
        Die();
        return left, true;
      }
      left := left - 1;
      Advance(RemovePack(id), world.(packs := world.packs - {name}));
      if left == 0 {
        Die();
        return left, true;
      }
      left := left - 1;
      Advance(RemoveIndex(id), world.(indexes := world.indexes - {name}));
      died := false;
    }

    method AbandonRow(id: IntentId)
      requires Valid() && Recovers(world, id, Discard)
      requires world.intents[id].pack.Some? ==>
                 world.intents[id].pack.value !in world.packs && world.intents[id].pack.value !in world.indexes
      modifies this
      ensures Valid() && old(run) <= run
      ensures world == old(world).(intents := SetIntent(old(world), id, Abandoned, old(world).intents[id].pack))
    {
      hide Decide, IsRun;
      Advance(RecoverDiscard(id), world.(intents := SetIntent(world, id, Abandoned, world.intents[id].pack)));
    }

    // One edit of the reference transaction.
    method ApplyNext(id: IntentId)
      requires Valid() && Inv(c, world) && world.job == Applying(id) && id in world.intents
      requires world.intents[id].applied < |world.intents[id].edits|
      modifies this
      ensures Valid() && Inv(c, world) && old(run) <= run && world.job == Applying(id)
      ensures world.intents == old(world.intents)[id := old(world.intents)[id].(applied := old(world.intents)[id].applied + 1)]
      ensures world.refs == ApplyEdit(old(world.refs), old(world.intents)[id].edits[old(world.intents)[id].applied])
      ensures world.pulls == old(world.pulls)
    {
      hide IsRun, Allowed;
      var row := world.intents[id];
      var edit := row.edits[row.applied];
      Advance(Apply, world.(refs := ApplyEdit(world.refs, edit),
              intents := world.intents[id := row.(applied := row.applied + 1)],
              published := world.published + (if edit.after.Some? then {edit.after.value} else {})));
      Facts();
    }

    /**
     The reference transaction up to a given number of edits, one after the
     other.  If the process dies, exactly the edits before that are applied.
     */
    method ApplyEdits(id: IntentId, upto: nat, dies: nat) returns (left: nat, died: bool)
      requires Valid() && world.job == Applying(id) && id in world.intents
      requires world.intents[id].applied == 0 && upto <= |world.intents[id].edits|
      modifies this
      ensures Valid() && old(run) <= run && world.pulls == old(world.pulls)
      ensures died <==> dies < upto
      ensures world.intents == old(world.intents)[id := old(world.intents)[id].(applied := if died then dies else upto)]
      ensures Progressed(world.refs, world.intents[id]) && OnlyMoves(old(world.refs), world.refs, world.intents[id].edits)
      ensures world.job == if died then Down else Applying(id)
      ensures !died ==> left == dies - upto
      ensures world.intents[id].applied == 0 ==> world.refs == old(world.refs)
    {
      hide Allowed, RowsShaped, IsRun;
      left, died := dies, false;
      Facts();
      while world.intents[id].applied < upto
        invariant Valid() && old(run) <= run && Inv(c, world) && world.pulls == old(world.pulls)
        invariant world.job == Applying(id) && id in world.intents && world.intents[id].applied <= upto
        invariant left + world.intents[id].applied == dies
        invariant world.intents[id].applied == 0 ==> world.refs == old(world.refs)
        invariant world.intents == old(world.intents)[id := old(world.intents)[id].(applied := world.intents[id].applied)]
        invariant OnlyMoves(old(world.refs), world.refs, world.intents[id].edits)
        decreases upto - world.intents[id].applied
      {
        if left == 0 {
          Die();
          died := true;
          return;
        }
        left := left - 1;
        ApplyNext(id);
      }
    }

    // Validates what a push brings: delta chains, objects, policy.
    method CheckPush(id: IntentId, access: Access, incoming: Option<Incoming>) returns (r: Result<(), ServiceError>)
      requires Valid() && id in world.intents
      ensures r.Success? ==> Validated(c, Present(world) + Brought(incoming), access, world.intents[id].edits)
      ensures r.Failure? ==> r.error.DeltaChain? || r.error.Rejected?
      ensures r.Failure? ==> Cause(c, world, world.intents[id].edits, access, incoming, Renamed, None, r.error)
    {
      hide EditFails, Visible;
      if incoming.Some? {
        var depth := DeltaDepth.ValidateDeltaDepth(incoming.value.layout);
        if depth.Failure? {
          return Failure(DeltaChain(depth.error));
        }
      }
      var present := Present(world) + Brought(incoming);
      var edits := world.intents[id].edits;
      var changes := ValidateProposedObjects(Visible(c, present), edits);
      if changes.Failure? {
        return Failure(Rejected(changes.error));
      }
      var permitted := ValidatePolicy(PolicyFor(c, access), edits, changes.value);
      if permitted.Failure? {
        PolicyRefuses(c, present, access, edits, changes.value);
        return Failure(Rejected(permitted.error));
      }
      ChecksValidate(c, present, access, edits, changes.value);
      r := Success(());
    }

    // Promotes the objects of a push that has begun: validation first, then the
    // two renames, or none when the very same pack is already in place.
    method FileObjects(id: IntentId, access: Access, incoming: Option<Incoming>, rename: Rename, dies: nat)
      returns (left: nat, r: Result<(), ServiceError>)
      requires Valid() && world.job == Begun(id) && id in world.intents && world.intents[id].merge.None?
      requires incoming.Some? && incoming.value.name in world.packs ==> world.packs[incoming.value.name] == incoming.value.objects
      modifies this
      ensures Valid() && old(run) <= run && world.refs == old(world.refs) && world.intents == old(world.intents) && world.pulls == old(world.pulls)
      ensures r.Success? ==> world.job.Filed? && world.job.id == id
      ensures r == Failure(Died) ==> world.job == Down
      ensures r.Failure? && r.error != Died ==> r.error.DeltaChain? || r.error.Rejected? || r.error == PackMismatch || r.error == PackRename
      ensures r.Failure? && r.error != Died && r.error != PackRename ==> world == old(world)
      ensures r == Failure(PackRename) ==>
                && rename.NotRenamed? && incoming.Some? && world.job == Halted && world.packs == old(world.packs)
                && world.indexes == old(world.indexes) + if rename.cleaned then {} else {incoming.value.name}
      ensures r.Success? ==> Validated(c, Present(old(world)) + Brought(incoming), access, world.intents[id].edits)
      ensures r.Failure? && r.error != Died ==> Cause(c, old(world), world.intents[id].edits, access, incoming, rename, None, r.error)
      ensures r == Failure(Died) ==> dies < 2
      ensures r.Success? ==> dies <= left + 2
    {
      hide IsRun, Validated;
      left := dies;
      r := CheckPush(id, access, incoming);
      if r.Failure? {
        return;
      }
      if incoming.None? {
        assert Present(world) + {} == Present(world);
        Advance(FileNothing(access), world.(job := Filed(id, None)));
        return left, Success(());
      }
      var Incoming(name, objects, _) := incoming.value;
      if (name in world.packs) != (name in world.indexes) {
        return left, Failure(PackMismatch);
      }
      if name in world.packs {
        Advance(FileExisting(access, name), world.(job := Filed(id, None)));
        return left, Success(());
      }
      left, r := PlaceFiles(id, access, name, objects, rename, left);
    }

    // The two renames.
    method PlaceFiles(id: IntentId, access: Access, name: PackName, objects: set<ObjectId>, rename: Rename, dies: nat)
      returns (left: nat, r: Result<(), ServiceError>)
      requires Valid() && world.job == Begun(id) && id in world.intents && world.intents[id].merge.None?
      requires name !in world.packs && name !in world.indexes && Validated(c, Present(world) + objects, access, world.intents[id].edits)
      modifies this
      ensures Valid() && old(run) <= run && world.refs == old(world.refs) && world.intents == old(world.intents) && world.pulls == old(world.pulls)
      ensures r.Success? ==> world.job == Filed(id, Some(name)) && rename == Renamed
      ensures r.Failure? ==> r.error == Died || r.error == PackRename
      ensures r == Failure(Died) ==> world.job == Down && dies < 2
      ensures r.Success? ==> left == dies - 2
      ensures r == Failure(PackRename) ==>
                && rename.NotRenamed? && world.job == Halted && world.packs == old(world.packs)
                && world.indexes == old(world.indexes) + if rename.cleaned then {} else {name}
    {
      hide IsRun, Validated;
      left := dies;
      if left == 0 {
        Die();
        return left, Failure(Died);
      }
      left := left - 1;
      Advance(PlaceIndex(access, name, objects), world.(indexes := world.indexes + {name}, job := Indexed(id, name, objects)));
      if left == 0 {
        Die();
        return left, Failure(Died);
      }
      left := left - 1;
      if rename.NotRenamed? {
        Advance(UndoIndex(rename.cleaned),
                world.(indexes := if rename.cleaned then world.indexes - {name} else world.indexes, job := Halted));
        return left, Failure(PackRename);
      }
      Advance(PlacePack, world.(packs := world.packs[name := objects], job := Filed(id, Some(name))));
      r := Success(());
    }

    method MarkRow(id: IntentId)
      requires Valid() && world.job.Filed? && world.job.id == id && id in world.intents && world.intents[id].state == Pending
      modifies this
      ensures Valid() && old(run) <= run
      ensures world == old(world).(intents := SetIntent(old(world), id, Promoted, old(world).job.pack), job := Applying(id))
    {
      Advance(Mark, world.(intents := SetIntent(world, id, Promoted, world.job.pack), job := Applying(id)));
    }

    method CompletePush(id: IntentId)
      requires Valid() && world.job == Applying(id) && RunsPush(world)
      requires world.intents[id].state == Promoted && world.intents[id].applied == |world.intents[id].edits|
      modifies this
      ensures Valid() && old(run) <= run
      ensures world == old(world).(intents := SetIntent(old(world), id, Completed, old(world).intents[id].pack), job := Idle)
    {
      Advance(GitIntents.Step.Complete, world.(intents := SetIntent(world, id, Completed, world.intents[id].pack), job := Idle));
    }

    // Marks the row, writes the references, all or those before an error, and completes the row.
    method Settle(id: IntentId, failsAfter: Option<nat>, dies: nat) returns (r: Result<(), ServiceError>)
      requires Valid() && world.job.Filed? && world.job.id == id && id in world.intents && world.intents[id].merge.None?
      modifies this
      ensures Valid() && old(run) <= run && id in world.intents
      ensures world.intents == old(world.intents)[id := world.intents[id]]
      ensures world.intents[id].edits == old(world.intents)[id].edits && world.intents[id].merge.None?
      ensures OnlyMoves(old(world.refs), world.refs, world.intents[id].edits)
      ensures r.Success? ==>
                && failsAfter == None && world.job == Idle && world.intents[id].state == Completed
                && world.intents[id].applied == |world.intents[id].edits| && AtProposed(world.refs, world.intents[id].edits)
      ensures r.Failure? ==> r.error == Died || r.error == RefTransaction
      ensures r == Failure(Died) ==> world.job == Down
      ensures r == Failure(Died) <==>
                dies < if failsAfter.Some? then 1 + AtMost(failsAfter.value, |world.intents[id].edits|) else 2 + |world.intents[id].edits|
      ensures r == Failure(RefTransaction) ==>
                && failsAfter.Some? && world.job == Halted && world.intents[id].state == Promoted
                && world.intents[id].applied == AtMost(failsAfter.value, |world.intents[id].edits|)
                && Progressed(world.refs, world.intents[id])
                && (world.intents[id].applied == 0 ==> world.refs == old(world.refs))
    {
      hide IsRun, RowShaped, Allowed, Enabled, Effect;
      Facts();
      NothingPending(world.intents[id]);
      if dies == 0 {
        Die();
        return Failure(Died);
      }
      MarkRow(id);
      var all := |world.intents[id].edits|;
      var left, died := ApplyEdits(id, if failsAfter.Some? then AtMost(failsAfter.value, all) else all, dies - 1);
      if died {
        return Failure(Died);
      }
      if failsAfter.Some? {
        Halt();
        return Failure(RefTransaction);
      }
      if left == 0 {
        Die();
        return Failure(Died);
      }
      CompletePush(id);
      r := Success(());
    }

    /**
     A push.  It succeeds with all its references written and its row completed.
     A failure is followed by recovery of everything left over: if that succeeds
     the push is abandoned with no reference changed, or completed when the
     error came after its last edit; if it stops at a row, the server goes on.
     When nothing was left over before, it stops exactly at a transaction that
     failed in the middle.
     */
    method Finish(id: IntentId, edits: seq<RefEdit>, access: Access, incoming: Option<Incoming>, rename: Rename,
                  failsAfter: Option<nat>, dies: nat, diesAgain: nat)
      returns (r: Result<(), ServiceError>)
      requires Valid() && world.job == Idle && id !in world.intents
      requires incoming.Some? && incoming.value.name in world.packs ==> world.packs[incoming.value.name] == incoming.value.objects
      modifies this
      ensures Valid() && old(run) <= run && OnlyMoves(old(world.refs), world.refs, edits)
      ensures r == Failure(BadCommands) <==> !WellFormed(edits)
      ensures r == Failure(StaleRef) <==> WellFormed(edits) && !AtInitial(old(world.refs), edits)
      ensures r == Failure(BadCommands) || r == Failure(StaleRef) ==> world == old(world)
      ensures WellFormed(edits) && AtInitial(old(world.refs), edits) ==> PushEnds(old(world), world, id, edits, failsAfter, r)
      ensures r.Success? ==> Validated(c, Present(old(world)) + Brought(incoming), access, edits)
      // Every failure has its cause; a recovery that stops has the failure before it.
      ensures r.Failure? && WellFormed(edits) && AtInitial(old(world.refs), edits) ==>
                FailureJustified(c, old(world), edits, access, incoming, rename, failsAfter, dies, diesAgain, r.error)
    {
      hide IsRun, PushEnds;
      if !WellFormed(edits) {
        return Failure(BadCommands);
      }
      if !AtInitial(world.refs, edits) {
        return Failure(StaleRef);
      }
      BeginPush(id, edits);
      assert edits != [];
      hide WellFormed, AtInitial, OnlyMoves, FailureJustified, Validated;
      r := PushBegun(id, edits, access, incoming, rename, failsAfter, old(world), dies, diesAgain);
    }

    // A push that has its row, and the recovery after it.
    method PushBegun(id: IntentId, edits: seq<RefEdit>, access: Access, incoming: Option<Incoming>, rename: Rename,
                     failsAfter: Option<nat>, ghost before: World, dies: nat, diesAgain: nat)
      returns (r: Result<(), ServiceError>)
      requires Valid() && id !in before.intents && edits != []
      requires world == before.(intents := before.intents[id := Intent(edits, Pending, None, 0, None)], job := Begun(id))
      requires incoming.Some? && incoming.value.name in world.packs ==> world.packs[incoming.value.name] == incoming.value.objects
      modifies this
      ensures Valid() && old(run) <= run && OnlyMoves(before.refs, world.refs, edits)
      ensures r != Failure(BadCommands) && r != Failure(StaleRef) && PushEnds(before, world, id, edits, failsAfter, r)
      ensures r.Success? ==> Validated(c, Present(before) + Brought(incoming), access, edits)
      ensures r.Failure? ==> FailureJustified(c, before, edits, access, incoming, rename, failsAfter, dies, diesAgain, r.error)
    {
      hide IsRun, RecoverIntent, Progressed, OnlyMoves, AtProposed, Leftover, Cause, Validated, Present;
      PackedAlike(before, world);
      ghost var begun := world;
      r := RunPush(id, access, incoming, rename, failsAfter, dies);
      if r.Failure? && r.error != Died {
        CauseStays(c, before, begun, edits, access, incoming, rename, failsAfter, r.error);
        OneMoreLeftover(before, world, id);
        r := RecoverAfter(r.error, id, before, diesAgain);
      }
    }

    // A push between its row and its end: done, dead, or halted with its row incomplete.
    method RunPush(id: IntentId, access: Access, incoming: Option<Incoming>, rename: Rename, failsAfter: Option<nat>, dies: nat)
      returns (r: Result<(), ServiceError>)
      requires Valid() && world.job == Begun(id) && id in world.intents && world.intents[id].merge.None?
      requires incoming.Some? && incoming.value.name in world.packs ==> world.packs[incoming.value.name] == incoming.value.objects
      modifies this
      ensures Valid() && old(run) <= run && id in world.intents && id in old(world.intents)
      ensures world.intents == old(world.intents)[id := world.intents[id]]
      ensures world.intents[id].edits == old(world.intents)[id].edits && world.intents[id].merge.None?
      ensures OnlyMoves(old(world.refs), world.refs, world.intents[id].edits)
      ensures r.Success? ==>
                && failsAfter == None && world.job == Idle && world.intents[id].state == Completed
                && AtProposed(world.refs, world.intents[id].edits)
                && Validated(c, Present(old(world)) + Brought(incoming), access, world.intents[id].edits)
      ensures r == Failure(Died) ==> world.job == Down && dies < |world.intents[id].edits| + 4
      ensures r.Failure? && r.error != Died ==>
                Cause(c, old(world), world.intents[id].edits, access, incoming, rename, failsAfter, r.error)
      ensures r.Failure? ==>
                || r.error == Died || r.error.DeltaChain? || r.error.Rejected? || r.error == PackMismatch || r.error == PackRename
                || (r.error == RefTransaction && failsAfter.Some?)
      ensures r.Failure? && r.error != Died ==>
                && world.job == Halted && id in Leftover(world) && Progressed(world.refs, world.intents[id])
                && world.intents[id].applied ==
                   (if r.error == RefTransaction then AtMost(failsAfter.value, |world.intents[id].edits|) else 0)
                && (world.intents[id].applied == 0 ==> world.refs == old(world.refs))
                && (world.intents[id].applied == |world.intents[id].edits| ==> AtProposed(world.refs, world.intents[id].edits))
    {
      hide IsRun, Enabled, Effect, RowShaped, Allowed, Progressed;
      Facts();
      NothingPending(world.intents[id]);
      assert world.intents == world.intents[id := world.intents[id]];
      var left;
      left, r := FileObjects(id, access, incoming, rename, dies);
      if r.Success? {
        r := Settle(id, failsAfter, left);
      } else if r.error != Died && r.error != PackRename {
        Halt();
      }
      if r.Failure? && r.error != Died {
        AppliedIsProposed(world.refs, world.intents[id]);
      }
    }

    method BeginPush(id: IntentId, edits: seq<RefEdit>)
      requires Valid() && world.job == Idle && id !in world.intents && WellFormed(edits) && AtInitial(world.refs, edits)
      modifies this
      ensures Valid() && old(run) <= run
      ensures world == old(world).(intents := old(world).intents[id := Intent(edits, Pending, None, 0, None)], job := Begun(id))
    {
      Advance(Begin(id, edits, None), world.(intents := world.intents[id := Intent(edits, Pending, None, 0, None)], job := Begun(id)));
    }

    // The recovery that follows a failed push; its error replaces the push's.
    method RecoverAfter(failed: ServiceError, id: IntentId, ghost before: World, dies: nat) returns (r: Result<(), ServiceError>)
      requires Valid() && world.job == Halted && failed != Died && !failed.Recovery?
      requires id in Leftover(world) && world.intents[id].merge.None? && Progressed(world.refs, world.intents[id])
      requires world.intents == before.intents[id := world.intents[id]] && id !in before.intents
      modifies this
      ensures Valid() && old(run) <= run && world.refs == old(world.refs)
      ensures r == Failure(failed) || r == Failure(Died) || (r.Failure? && r.error.Recovery?)
      ensures r == Failure(Died) ==> world.job == Down && dies < 3 * |Leftover(old(world))|
      ensures r != Failure(Died) ==> world.job == Idle
      ensures var row := old(world).intents[id];
              && (r == Failure(failed) ==>
                    && NoneIncomplete(world) && id in world.intents
                    && (row.applied == 0 || row.applied == |row.edits|)
                    && world.intents[id].state == if row.applied == 0 then Abandoned else Completed)
              && (r.error.Recovery? ==>
                    r.error.trouble.id in Leftover(world) && RecoverIntent(world, r.error.trouble.id) == Failure(r.error.trouble))
              && (r.error.Recovery? && NoneIncomplete(before) ==>
                    r.error.trouble == MixedRecovery(id) && HalfApplied(row) && world.intents == old(world).intents)
    {
      hide IsRun, RecoverAll, RecoverIntent, Decide, Enabled, Effect, HalfApplied, Progressed, RowShaped;
      Facts();
      RecoverAllSound(world);
      AfterRecovery(world, before, id);
      var recovered := RecoverIncomplete(dies);
      if recovered.Success? {
        r := Failure(failed);
      } else {
        r := Failure(recovered.error);
        if recovered.error != Died {
          JobDoesNotMatter(world, recovered.error.trouble.id);
          KeepServing();
        }
      }
    }

    method KeepServing()
      requires Valid() && world.job == Halted
      modifies this
      ensures Valid() && old(run) <= run && world == old(world).(job := Idle)
    {
      Advance(GoOn, world.(job := Idle));
    }

    // Writes the merge commit and what it needs as loose objects, if there is one, and files the result.
    method FileMergeObjects(id: IntentId, base: ObjectId, head: ObjectId, fastForward: bool, prepared: ObjectId,
                            ghost tree: ObjectId, written: set<ObjectId>, dies: nat) returns (left: nat, died: bool)
      requires Valid() && world.job == Begun(id) && id in world.intents && head in world.published
      requires |world.intents[id].edits| == 1 && IsBranch(world.intents[id].edits[0].name) && world.intents[id].merge.Some?
      requires world.intents[id].edits[0].before == Some(base)
      requires world.intents[id].edits[0].after == Some(if fastForward then head else prepared)
      requires fastForward ==> Ancestor(c.universe, base, head)
      requires !fastForward ==> MergeObjects(c, world, base, head, prepared, tree, written)
      modifies this
      ensures Valid() && old(run) <= run && world.refs == old(world.refs) && world.intents == old(world.intents) && world.pulls == old(world.pulls)
      ensures if died then world.job == Down else world.job == Filed(id, None)
      ensures var steps := if fastForward then 0 else 1;
              (died <==> dies < steps) && (!died ==> left == dies - steps)
    {
      left, died := dies, false;
      if !fastForward {
        if left == 0 {
          Die();
          return left, true;
        }
        left := left - 1;
        ghost var before := world;
        Advance(WriteLoose(written), world.(loose := world.loose + written));
        WrittenIsPresent(c, before, world, written, tree);
      }
      Advance(FileMerge(head), world.(job := Filed(id, None)));
    }

    // Whether the branches are still as the revision recorded them and the requested method fits.
    method CheckMerge(merge: MergeOf, baseRef: RefName, headRef: RefName, base: ObjectId, head: ObjectId, fastForward: bool,
                      maximum: nat, mergeBase: Option<ObjectId>, conflicts: bool, prepared: ObjectId)
      returns (r: Result<ObjectId, ServiceError>)
      requires Valid()
      requires mergeBase.Some? <==> Histories.Related(Visible(c, Present(world)), base, head)
      ensures r.Success? ==>
                && TargetOf(world.refs, baseRef) == Some(base) && head in world.published
                && r.value == (if fastForward then head else prepared)
                && (fastForward ==> base != head && Ancestor(c.universe, base, head))
                && Mergeable(Visible(c, Present(world)), base, head, fastForward, conflicts)
                && AtRevision(world.pulls, merge)
      ensures r.Success? ==> TargetOf(world.refs, headRef) == Some(head)
      ensures r.Failure? ==> NeverBegan(r.error)
      ensures r.Failure? ==> MergeRefused(c, world, merge, baseRef, headRef, base, head, fastForward, maximum, conflicts, r.error)
    {
      if !AtRevision(world.pulls, merge) {
        return Failure(NotOpen);
      }
      if TargetOf(world.refs, baseRef) != Some(base) || TargetOf(world.refs, headRef) != Some(head) {
        return Failure(StaleRevision);
      }
      var comparison := Histories.Compare(Visible(c, Present(world)), base, head, maximum, mergeBase, conflicts);
      if comparison.Failure? {
        return Failure(UnreadableHistory);
      }
      var target := Histories.MergeTarget(fastForward, comparison.value.mergeability, head, prepared);
      if target.None? {
        return Failure(NotMergeable);
      }
      RunKeepsInv(c, run, |run| - 1);
      assert world.refs[headRef] in world.refs.Values;
      if fastForward {
        FastForwardMoves(c, world, base, head);
      }
      r := Success(target.value);
    }

    // A merge that gives up before its reference is written abandons its row itself.
    method GiveMergeUp(id: IntentId)
      requires Valid() && RunsMerge(world) && !world.job.Indexed? && world.job.id == id && world.intents[id].applied == 0
      modifies this
      ensures Valid() && old(run) <= run && world.refs == old(world.refs) && world.pulls == old(world.pulls) && world.job == Idle
      ensures world.intents == SetIntent(old(world), id, Abandoned, old(world).intents[id].pack)
    {
      Facts();
      assert RowShaped(world.intents[id]);
      Advance(GiveUp, world.(intents := SetIntent(world, id, Abandoned, world.intents[id].pack), job := Idle));
    }

    // Completes the row of a merge whose reference is written, unless its pull
    // request has been closed meanwhile: then the row stays as it is.
    method CompleteMerge(id: IntentId, closes: bool) returns (done: bool)
      requires Valid() && world.job == Applying(id) && RunsMerge(world)
      requires world.intents[id].applied == |world.intents[id].edits| && Accepted(world.pulls, world.intents[id])
      modifies this
      ensures Valid() && old(run) <= run && world.refs == old(world.refs) && world.job == Idle
      ensures id in world.intents && id in old(world.intents)
      ensures done <==> !closes
      ensures done ==> world.intents[id] == old(world.intents)[id].(state := Completed) && world.pulls == Settled(old(world.pulls), old(world.intents)[id])
      ensures !done ==> world.intents == old(world.intents) && Refused(world, world.intents[id])
    {
      hide IsRun;
      Facts();
      if closes {
        var number := world.intents[id].merge.value.number;
        Advance(SetPull(number, PR.Closed), world.(pulls := world.pulls[number := world.pulls[number].(state := PR.Closed)]));
        Advance(Leave, world.(job := Idle));
        return false;
      }
      Advance(GitIntents.Step.Complete, world.(intents := SetIntent(world, id, Completed, world.intents[id].pack),
              pulls := Settled(world.pulls, world.intents[id]), job := Idle));
      done := true;
    }

    /**
     A merge: the comparison decides whether the requested method applies, the
     objects are written before the row is marked, then one reference is moved
     and the row completed.  It never recovers: a refused completion leaves the
     branch moved and the row promoted.
     */
    method Merge(id: IntentId, merge: MergeOf, baseRef: RefName, headRef: RefName, base: ObjectId, head: ObjectId, fastForward: bool,
                 maximum: nat, mergeBase: Option<ObjectId>, conflicts: bool,
                 prepared: ObjectId, ghost tree: ObjectId, written: set<ObjectId>,
                 writeFails: bool, update: Update, closes: bool, dies: nat)
      returns (r: Result<(), ServiceError>)
      requires Valid() && world.job == Idle && id !in world.intents && IsBranch(baseRef)
      requires mergeBase.Some? <==> Histories.Related(Visible(c, Present(world)), base, head)
      requires !fastForward ==> MergeObjects(c, world, base, head, prepared, tree, written)
      modifies this
      ensures Valid() && old(run) <= run
      ensures MergeEnds(old(world).refs, world, id, [RefEdit(baseRef, Some(base), Some(if fastForward then head else prepared))],
                        merge, update, closes, r)
      ensures r.Failure? && NeverBegan(r.error) ==> world == old(world)
      ensures r == Failure(MergeCommit) ==>
                writeFails && world.refs == old(world.refs) && id in world.intents && world.intents[id].state == Abandoned
      ensures r.Failure? ==> NeverBegan(r.error) || EndsMerge(r.error)
      ensures r.Failure? && NeverBegan(r.error) ==>
                MergeRefused(c, old(world), merge, baseRef, headRef, base, head, fastForward, maximum, conflicts, r.error)
      ensures !(r.Failure? && NeverBegan(r.error)) ==>
                && AtRevision(old(world).pulls, merge)
                && TargetOf(old(world).refs, baseRef) == Some(base) && TargetOf(old(world).refs, headRef) == Some(head)
                && Mergeable(Visible(c, Present(old(world))), base, head, fastForward, conflicts)
      ensures r == Failure(Died) ==> dies < 4
      ensures r == Failure(MergeCommit) ==> !fastForward
      // Once it has begun, and with nothing failing, it succeeds.
      ensures !(r.Failure? && NeverBegan(r.error)) && dies >= 4 && (fastForward || !writeFails) ==>
                (r.Success? <==> update == Works && !closes)
    {
      assert !fastForward ==> prepared != base;
      hide MergeEnds, MergeRefused, Visible, Present, AtRevision, NeverBegan, MergeObjects, Mergeable, Ancestor, IsRun, Histories.Related, EndsMerge;
      var edit := RefEdit(baseRef, Some(base), Some(if fastForward then head else prepared));
      var target := CheckMerge(merge, baseRef, headRef, base, head, fastForward, maximum, mergeBase, conflicts, prepared);
      if target.Failure? {
        NothingMoved(world, id, [edit], merge, update, closes, target.error);
        return Failure(target.error);
      }
      r := MergeChecked(id, merge, edit, base, head, fastForward, prepared, tree, written, writeFails, update, closes, dies);
      if r.Failure? {
        EndsDiffer(r.error);
      }
    }

    // A merge whose checks have passed.
    method MergeChecked(id: IntentId, merge: MergeOf, edit: RefEdit, base: ObjectId, head: ObjectId, fastForward: bool,
                        prepared: ObjectId, ghost tree: ObjectId, written: set<ObjectId>,
                        writeFails: bool, update: Update, closes: bool, dies: nat)
      returns (r: Result<(), ServiceError>)
      requires Valid() && world.job == Idle && id !in world.intents && IsBranch(edit.name)
      requires AtRevision(world.pulls, merge)
      requires TargetOf(world.refs, edit.name) == edit.before == Some(base) && head in world.published
      requires edit.after == Some(if fastForward then head else prepared) && edit.before != edit.after
      requires fastForward ==> Ancestor(c.universe, base, head)
      requires !fastForward ==> MergeObjects(c, world, base, head, prepared, tree, written)
      modifies this
      ensures Valid() && old(run) <= run
      ensures MergeEnds(old(world).refs, world, id, [edit], merge, update, closes, r)
      ensures r == Failure(MergeCommit) ==>
                writeFails && world.refs == old(world.refs) && id in world.intents && world.intents[id].state == Abandoned
      ensures r.Failure? ==> EndsMerge(r.error)
      ensures r == Failure(Died) ==> dies < 4
      ensures r == Failure(MergeCommit) <==> writeFails && !fastForward
      ensures dies >= 4 && !(writeFails && !fastForward) ==> (r.Success? <==> update == Works && !closes)
    {
      hide IsRun, MergeEnds, MergeObjects, Ancestor, Enabled, Effect, Present;
      BeginMerge(id, edit, merge);
      if writeFails && !fastForward {
        GiveMergeUp(id);
        NothingMoved(world, id, [edit], merge, update, closes, MergeCommit);
        return Failure(MergeCommit);
      }
      MergeObjectsStay(c, old(world), world, base, head, prepared, tree, written);
      var left, died := FileMergeObjects(id, base, head, fastForward, prepared, tree, written, dies);
      if died {
        NothingMoved(world, id, [edit], merge, update, closes, Died);
        return Failure(Died);
      }
      r := SettleMerge(id, update, closes, left);
    }

    method BeginMerge(id: IntentId, edit: RefEdit, merge: MergeOf)
      requires Valid() && world.job == Idle && id !in world.intents && IsBranch(edit.name) && edit.before != edit.after
      requires TargetOf(world.refs, edit.name) == edit.before && AtRevision(world.pulls, merge)
      modifies this
      ensures Valid() && old(run) <= run
      ensures world == old(world).(intents := old(world).intents[id := Intent([edit], Pending, None, 0, Some(merge))], job := Begun(id))
    {
      hide IsRun;
      assert WellFormed([edit]) && AtInitial(world.refs, [edit]);
      Advance(Begin(id, [edit], Some(merge)),
              world.(intents := world.intents[id := Intent([edit], Pending, None, 0, Some(merge))], job := Begun(id)));
    }

    // Marks the row of a merge, moves the branch and completes the row.
    method SettleMerge(id: IntentId, update: Update, closes: bool, dies: nat) returns (r: Result<(), ServiceError>)
      requires Valid() && world.job == Filed(id, None) && id in world.intents && world.intents[id].merge.Some?
      requires |world.intents[id].edits| == 1 && Accepted(world.pulls, world.intents[id])
      modifies this
      ensures Valid() && old(run) <= run && id in world.intents && id in old(world.intents)
      ensures MergeEnds(old(world).refs, world, id, old(world.intents)[id].edits, old(world.intents)[id].merge.value, update, closes, r)
      ensures r.Failure? ==> r.error == Died || r.error == RefUpdate || r.error == CompletionRefused
      ensures r == Failure(Died) <==> dies < if update == FailsBefore then 1 else 3
      ensures r == Failure(CompletionRefused) <==> dies >= 3 && update != FailsBefore && closes
      ensures r.Success? <==> dies >= 3 && update == Works && !closes
    {
      hide IsRun, RowShaped, Allowed, Enabled, Effect;
      Facts();
      NothingPending(world.intents[id]);
      if dies == 0 {
        Die();
        return Failure(Died);
      }
      MarkRow(id);
      if update == FailsBefore {
        GiveMergeUp(id);
        return Failure(RefUpdate);
      }
      var left, died := ApplyEdits(id, 1, dies - 1);
      if died || left == 0 {
        Die();
        return Failure(Died);
      }
      var done := CompleteMerge(id, closes);
      r := if !done then Failure(CompletionRefused) else if update == Works then Success(()) else Failure(RefUpdate);
    }
  }

}
