/** The guarantees of the push and merge protocol over whole runs, and exactly where they end. */
module GitIntentTheorems {
  import opened Outcomes
  import opened Objects
  import opened Refs
  import opened GitIntents
  import opened GitIntentSafety
  import PR = PullRequestRefs

  /**
   Everything reachable from every reference is present in every state of every
   run, although abandoning an intent deletes its pack, as long as nothing
   begins while an incomplete row records a pack.
   */
  lemma ReferencesStayComplete(c: Config, run: seq<World>, k: nat, name: RefName, x: ObjectId)
    requires Guarded(c, run) && k < |run|
    requires name in run[k].refs && Reaches(Links(c.universe), run[k].refs[name], x)
    ensures x in Present(run[k])
  {
    RunKeepsSafe(c, run, k);
    assert run[k].refs[name] in run[k].refs.Values;
    assert Held(c, Present(run[k]), run[k].refs[name]);
  }

  // Deleting a pack hides its objects and no others.
  lemma RemovalHides(c: Config, w: World, id: IntentId)
    requires Enabled(c, w, RemovePack(id))
    ensures Present(Effect(c, w, RemovePack(id))) == PresentWithout(w, w.intents[id].pack)
    ensures Effect(c, w, RemovePack(id)).published == w.published
  {
    hide Decide;
    var w' := Effect(c, w, RemovePack(id));
    PresentMonotone(w, w.intents[id].pack, w', None);
    PresentMonotone(w', None, w, w.intents[id].pack);
  }

  // An object newly published was in place before.
  lemma PublishedIsHeld(c: Config, w: World)
    requires Enabled(c, w, Apply) && ObjectsReady(c, w) && AllHeld(c, w, None)
    ensures AllHeld(c, Effect(c, w, Apply), None)
  {
    hide Held;
    assert Present(Effect(c, w, Apply)) == Present(w);
  }

  // Taking away an index whose pack is not there.
  lemma IndexRemovalHidesNothing(c: Config, w: World, s: Step)
    requires Enabled(c, w, s) && JobSound(w) && (s.RemoveIndex? || s.UndoIndex? || s.PlaceIndex?) && AllHeld(c, w, None)
    ensures AllHeld(c, Effect(c, w, s), None)
  {
    hide Held, AllHeld, Progressed, Validated, Decide;
    var w' := Effect(c, w, s);
    PresentMonotone(w, None, w', None);
    AllHeldElsewhere(c, w, None, w', None);
  }

  /**
   In every run, whatever is left over: from a state where all that was ever
   published is present with everything below it, one step loses some of it if
   and only if it deletes a pack that some published object needs.
   */
  lemma StepLosesExactly(c: Config, w: World, s: Step)
    requires Inv(c, w) && ObjectsReady(c, w) && AllHeld(c, w, None) && Enabled(c, w, s)
    ensures ObjectsReady(c, Effect(c, w, s))
    ensures AllHeld(c, Effect(c, w, s), None) <==> (s.RemovePack? ==> AllHeld(c, w, w.intents[s.id].pack))
  {
    hide Held, ObjectsReady, RowsShaped, Allowed;
    ReadyKept(c, w, s);
    if s.RemovePack? {
      hide AllHeld, JobSound;
      RemovalHides(c, w, s.id);
      SameHolding(c, w, w.intents[s.id].pack, Effect(c, w, s), None);
    } else if s.Apply? {
      PublishedIsHeld(c, w);
    } else if s.PlaceIndex? || s.UndoIndex? || s.RemoveIndex? {
      IndexRemovalHidesNothing(c, w, s);
    } else {
      PacksStay(c, w, s);
      hide Enabled, Effect, AllHeld, JobSound;
      StepFrame(c, w, s);
      PresentMonotone(w, None, Effect(c, w, s), None);
      AllHeldElsewhere(c, w, None, Effect(c, w, s), None);
    }
  }

  lemma SameHolding(c: Config, w: World, hidden: Option<PackName>, w': World, hidden': Option<PackName>)
    requires PresentWithout(w, hidden) == PresentWithout(w', hidden') && w.published == w'.published
    ensures AllHeld(c, w, hidden) <==> AllHeld(c, w', hidden')
  {
  }

  // Between two states of a run, recovery deletes a pack that a published object needs.
  ghost predicate LosesAt(c: Config, run: seq<World>, i: nat)
    requires i + 1 < |run|
  {
    exists id :: Enabled(c, run[i], RemovePack(id)) && run[i + 1] == Effect(c, run[i], RemovePack(id))
                 && !AllHeld(c, run[i], run[i].intents[id].pack)
  }

  lemma LossIsSeen(c: Config, run: seq<World>, i: nat)
    requires i + 1 < |run| && LosesAt(c, run, i)
    ensures !AllHeld(c, run[i + 1], None)
  {
    hide AllHeld;
    var id :| Enabled(c, run[i], RemovePack(id)) && run[i + 1] == Effect(c, run[i], RemovePack(id))
              && !AllHeld(c, run[i], run[i].intents[id].pack);
    RemovalHides(c, run[i], id);
    SameHolding(c, run[i], run[i].intents[id].pack, run[i + 1], None);
  }

  lemma {:induction false} NothingLostUpTo(c: Config, run: seq<World>, k: nat)
    requires IsRun(c, run) && k < |run| && forall i :: 0 <= i < k ==> !LosesAt(c, run, i)
    ensures ObjectsReady(c, run[k]) && forall i :: 0 <= i <= k ==> AllHeld(c, run[i], None)
  {
    hide Enabled, Effect, AllHeld, ObjectsReady, Inv, ObjectsSafe, PacksTracked, RowsSound;
    if k == 0 {
      InitIsTidy(c, run[0]);
      InitHolds(c, run[0]);
    } else {
      NothingLostUpTo(c, run, k - 1);
      RunKeepsInv(c, run, k - 1);
      var s := StepInRun(c, run, k);
      StepLosesExactly(c, run[k - 1], s);
      assert !LosesAt(c, run, k - 1);
    }
  }

  lemma InitHolds(c: Config, w: World)
    requires TidyInv(c, w)
    ensures ObjectsReady(c, w) && AllHeld(c, w, None)
  {
  }

  /**
   Over every run: all that was ever published stays present with everything
   below it, in every state up to the k-th, if and only if no step before it
   deletes a pack that a published object needs.
   */
  lemma NothingIsLostExactly(c: Config, run: seq<World>, k: nat)
    requires IsRun(c, run) && k < |run|
    ensures (forall i :: 0 <= i <= k ==> AllHeld(c, run[i], None)) <==> forall i :: 0 <= i < k ==> !LosesAt(c, run, i)
  {
    hide AllHeld, IsRun;
    if i :| 0 <= i < k && LosesAt(c, run, i) {
      LossIsSeen(c, run, i);
      assert !AllHeld(c, run[i + 1], None);
    } else {
      NothingLostUpTo(c, run, k);
    }
  }

  /** The references are among what was published, so without such a deletion they are complete, guarded or not. */
  lemma CompleteWithoutLoss(c: Config, run: seq<World>, k: nat, name: RefName, x: ObjectId)
    requires IsRun(c, run) && k < |run| && forall i :: 0 <= i < k ==> !LosesAt(c, run, i)
    requires name in run[k].refs && Reaches(Links(c.universe), run[k].refs[name], x)
    ensures x in Present(run[k])
  {
    hide IsRun, LosesAt;
    NothingLostUpTo(c, run, k);
    RunKeepsInv(c, run, k);
    assert run[k].refs[name] in run[k].refs.Values;
    assert Held(c, Present(run[k]), run[k].refs[name]);
  }

  predicate HalfApplied(intent: Intent) {
    Incomplete(intent) && 0 < intent.applied < |intent.edits|
  }

  // A merge whose reference is written while the store does not accept its completion.
  predicate Refused(w: World, intent: Intent) {
    Incomplete(intent) && intent.applied == |intent.edits| && !Accepted(w.pulls, intent)
  }

  // Why recovery stops at an intent.
  datatype Trouble = MixedRecovery(id: IntentId) | PullRequestState(id: IntentId)

  // One intent, recovered without interruption.
  function RecoverIntent(w: World, id: IntentId): Result<World, Trouble>
    requires id in w.intents
  {
    var row := w.intents[id];
    match Decide(w.refs, row)
    case Mixed => Failure(MixedRecovery(id))
    case Keep =>
      if Accepted(w.pulls, row)
      then Success(w.(intents := SetIntent(w, id, Completed, row.pack), pulls := Settled(w.pulls, row)))
      else Failure(PullRequestState(id))
    case Drop => Success(w.(intents := SetIntent(w, id, Abandoned, row.pack)))
    case Discard =>
      var packs := if row.pack.Some? then {row.pack.value} else {};
      Success(w.(packs := w.packs - packs, indexes := w.indexes - packs, intents := SetIntent(w, id, Abandoned, row.pack)))
  }

  /**
   Recovery of any row left over in any run, whatever has moved its references
   since.  It is mixed exactly when its references are not as before, and they
   are as proposed by a row that was never marked, or neither, and there are
   several; it is refused exactly for a merge at its target that the store does
   not accept.  Otherwise the row is completed exactly when it was marked and
   its references are as proposed.
   */
  lemma RecoveryDecides(c: Config, run: seq<World>, k: nat, id: IntentId)
    requires IsRun(c, run) && k < |run| && id in run[k].intents && Incomplete(run[k].intents[id])
    ensures var row, refs := run[k].intents[id], run[k].refs;
            var before, there := AtInitial(refs, row.edits), AtProposed(refs, row.edits);
            var r := RecoverIntent(run[k], id);
            && !(before && there)
            && (r == Failure(MixedRecovery(id)) <==> !before && if there then row.state == Pending else |row.edits| > 1)
            && (r == Failure(PullRequestState(id)) <==> there && row.state == Promoted && !Accepted(run[k].pulls, row))
            && (r.Failure? ==> r.error.id == id)
            && (r.Success? ==>
                  && r.value.refs == refs
                  && (forall i :: i in r.value.intents && i != id ==> i in run[k].intents && r.value.intents[i] == run[k].intents[i])
                  && r.value.intents[id] == row.(state := if there && row.state == Promoted then Completed else Abandoned))
  {
    RunKeepsInv(c, run, k);
    var row, refs := run[k].intents[id], run[k].refs;
    assert RowShaped(row);
    assert row.edits[0].before != row.edits[0].after;
    hide AtInitial, AtProposed, Accepted, Inv, IsRun;
    NotBothEnds(refs, row.edits);
  }

  lemma NotBothEnds(refs: RefStore, edits: seq<RefEdit>)
    requires WellFormed(edits)
    ensures !(AtInitial(refs, edits) && AtProposed(refs, edits))
  {
    assert edits[0].before != edits[0].after;
  }

  /**
   The case of a row whose references nothing else has moved: recovery fails, as
   mixed, exactly for a half-applied transaction, and, as refused, exactly for a
   fully applied merge whose pull request is not open at its revision; otherwise
   it is completed exactly when its transaction had taken effect.
   */
  lemma RecoverySettles(c: Config, run: seq<World>, k: nat, id: IntentId)
    requires IsRun(c, run) && k < |run|
    requires id in run[k].intents && Incomplete(run[k].intents[id]) && Progressed(run[k].refs, run[k].intents[id])
    ensures RecoverIntent(run[k], id) == Failure(MixedRecovery(id)) <==> HalfApplied(run[k].intents[id])
    ensures RecoverIntent(run[k], id) == Failure(PullRequestState(id)) <==> Refused(run[k], run[k].intents[id])
    ensures RecoverIntent(run[k], id).Failure? ==> HalfApplied(run[k].intents[id]) || Refused(run[k], run[k].intents[id])
    ensures RecoverIntent(run[k], id).Success? ==>
              var w := RecoverIntent(run[k], id).value;
              && w.refs == run[k].refs
              && (forall i :: i in w.intents && i != id ==> i in run[k].intents && w.intents[i] == run[k].intents[i])
              && (w.intents[id].state == Completed <==> AtProposed(w.refs, w.intents[id].edits))
              && (w.intents[id].state == Abandoned <==> AtInitial(w.refs, w.intents[id].edits))
  {
    RunKeepsInv(c, run, k);
    var w, row := run[k], run[k].intents[id];
    assert RowShaped(row);
    DecisionFits(w.refs, row);
    assert TargetOf(w.refs, row.edits[0].name) == if 0 < row.applied then row.edits[0].after else row.edits[0].before;
  }

  /**
   While nothing begins before everything is settled, the rows tell the truth:
   a completed one has all its edits applied, an abandoned one none, and at most
   one is undecided, whose references are as it left them.
   */
  lemma RowsTellTheTruth(c: Config, run: seq<World>, k: nat, id: IntentId)
    requires Tidy(c, run) && k < |run| && id in run[k].intents
    ensures var row := run[k].intents[id];
            && (row.state == Completed ==> row.applied == |row.edits|)
            && (row.state == Abandoned ==> row.applied == 0)
            && (Incomplete(row) ==> Progressed(run[k].refs, row))
            && (Incomplete(row) ==> forall i :: i in run[k].intents && Incomplete(run[k].intents[i]) ==> i == id)
  {
    RunKeepsTidy(c, run, k);
    assert RowSound(run[k].refs, run[k].intents[id]);
  }

  /**
   Whatever happened since, recovery treats a row of one reference by where that
   reference points now.  Anywhere but at its new target the row is abandoned,
   whether or not the edit had taken effect, so moving the reference on frees
   it; at its new target a marked row is kept, if the store accepts that, and an
   unmarked one is mixed.
   */
  lemma OneReferenceDecides(w: World, id: IntentId)
    requires id in w.intents && Incomplete(w.intents[id]) && |w.intents[id].edits| == 1
    requires w.intents[id].edits[0].before != w.intents[id].edits[0].after
    ensures var row := w.intents[id];
            var there := TargetOf(w.refs, row.edits[0].name) == row.edits[0].after;
            && (RecoverIntent(w, id) == Failure(MixedRecovery(id)) <==> there && row.state == Pending)
            && (RecoverIntent(w, id) == Failure(PullRequestState(id)) <==> there && row.state == Promoted && !Accepted(w.pulls, row))
            && (RecoverIntent(w, id).Failure? ==> there && RecoverIntent(w, id).error.id == id)
            && (RecoverIntent(w, id).Success? ==>
                  RecoverIntent(w, id).value.intents[id] == row.(state := if there then Completed else Abandoned))
  {
    var row := w.intents[id];
    assert AtProposed(w.refs, row.edits) <==> TargetOf(w.refs, row.edits[0].name) == row.edits[0].after;
    assert AtInitial(w.refs, row.edits) <==> TargetOf(w.refs, row.edits[0].name) == row.edits[0].before;
  }

  /** Reopening lets a refused merge through exactly when its pull request is closed and has no newer revision. */
  lemma ReopeningDecides(c: Config, w: World, id: IntentId)
    requires id in w.intents && RowShaped(w.intents[id]) && Progressed(w.refs, w.intents[id]) && Refused(w, w.intents[id])
    requires w.intents[id].merge.value.number in w.pulls
    ensures var MergeOf(number, revision) := w.intents[id].merge.value;
            (Enabled(c, w, SetPull(number, PR.Open)) && RecoverIntent(Effect(c, w, SetPull(number, PR.Open)), id).Success?)
            <==> w.pulls[number].state == PR.Closed && |w.pulls[number].revisions| == revision
  {
    var MergeOf(number, revision) := w.intents[id].merge.value;
    DecisionFits(w.refs, w.intents[id]);
    if Enabled(c, w, SetPull(number, PR.Open)) {
      var w' := Effect(c, w, SetPull(number, PR.Open));
      assert w'.intents[id] == w.intents[id] && w'.refs == w.refs;
    }
  }

  // Pull requests do not disappear, revisions do not, and merged is final.
  predicate PullGrows(pulls: map<nat, PR.Pull>, pulls': map<nat, PR.Pull>, number: nat) {
    && number in pulls && number in pulls'
    && |pulls[number].revisions| <= |pulls'[number].revisions|
    && (pulls[number].state == PR.Merged ==> pulls'[number].state == PR.Merged)
  }

  lemma StepGrowsPulls(c: Config, w: World, s: Step, number: nat)
    requires Enabled(c, w, s) && number in w.pulls
    ensures PullGrows(w.pulls, Effect(c, w, s).pulls, number)
  {
    if s.Complete? || s.RecoverKeep? || s.OpenPull? || s.RevisePull? || s.SetPull? {
      hide Decide;
    } else {
      hide Enabled, Effect;
      StepFrame(c, w, s);
    }
  }

  /** Once its pull request is merged or revised, a refused merge is refused in every continuation of the run. */
  lemma {:induction false} RefusedForever(c: Config, run: seq<World>, i: nat, j: nat, intent: Intent)
    requires IsRun(c, run) && i <= j < |run| && intent.merge.Some? && intent.merge.value.number in run[i].pulls
    requires var pull := run[i].pulls[intent.merge.value.number];
             pull.state == PR.Merged || |pull.revisions| > intent.merge.value.revision
    ensures !Accepted(run[j].pulls, intent) && PullGrows(run[i].pulls, run[j].pulls, intent.merge.value.number)
    decreases j - i
  {
    hide Enabled, Effect, Init;
    if i < j {
      RefusedForever(c, run, i, j - 1, intent);
      var s := StepInRun(c, run, j);
      StepGrowsPulls(c, run[j - 1], s, intent.merge.value.number);
    }
  }

  function Leftover(w: World): set<IntentId> {
    set i | i in w.intents && Incomplete(w.intents[i])
  }

  ghost predicate IsLeast(ids: set<IntentId>, least: IntentId) {
    least in ids && forall i :: i in ids ==> least <= i
  }

  lemma {:induction false} LeastExists(ids: set<IntentId>)
    requires ids != {}
    ensures exists least :: IsLeast(ids, least)
  {
    var id :| id in ids;
    var rest := ids - {id};
    if rest == {} {
      assert ids == {id};
      assert IsLeast(ids, id);
    } else {
      LeastExists(rest);
      var least :| IsLeast(rest, least);
      assert ids == rest + {id};
      assert IsLeast(ids, if id < least then id else least);
    }
  }

  function First(w: World): (id: IntentId)
    requires Leftover(w) != {}
    ensures IsLeast(Leftover(w), id)
  {
    LeastExists(Leftover(w));
    var id :| id in Leftover(w) && forall i :: i in Leftover(w) ==> id <= i;
    id
  }

  // What recovering one intent leaves alone.
  lemma RecoverIntentFrame(w: World, id: IntentId)
    requires id in Leftover(w) && RecoverIntent(w, id).Success?
    ensures var w' := RecoverIntent(w, id).value;
            && SameHistory(w, w') && !Incomplete(w'.intents[id])
            && forall i :: i in w.intents && i != id ==> w'.intents[i] == w.intents[i]
  {
    hide Decide, Accepted;
  }

  lemma RecoveryShrinks(w: World, id: IntentId)
    requires id in Leftover(w) && RecoverIntent(w, id).Success?
    ensures Leftover(RecoverIntent(w, id).value) == Leftover(w) - {id}
  {
    hide RecoverIntent;
    RecoverIntentFrame(w, id);
  }

  // All leftover intents in their order, up to the first that cannot be settled.
  function RecoverAll(w: World): (World, Option<Trouble>)
    decreases |Leftover(w)|
  {
    if Leftover(w) == {} then (w, None)
    else
      match RecoverIntent(w, First(w))
      case Failure(trouble) => (w, Some(trouble))
      case Success(w') =>
        RecoveryShrinks(w, First(w));
        RecoverAll(w')
  }

  // Recovery writes no reference and changes only the state of rows.
  predicate SameHistory(before: World, after: World) {
    && after.refs == before.refs && after.published == before.published && after.loose == before.loose && after.job == before.job
    && after.intents.Keys == before.intents.Keys
    && forall i :: i in after.intents ==>
         && after.intents[i] == before.intents[i].(state := after.intents[i].state)
         && (Incomplete(after.intents[i]) ==> after.intents[i] == before.intents[i])
  }

  /**
   A whole recovery settles a first part of the leftover rows and stops at the
   first row it cannot settle, which with every later one it leaves as it was.
   */
  lemma {:induction false} RecoverAllSound(w: World)
    ensures SameHistory(w, RecoverAll(w).0)
    ensures RecoverAll(w).1 == None <==> NoneIncomplete(RecoverAll(w).0)
    ensures RecoverAll(w).1.Some? ==> StopsAt(w, RecoverAll(w).0, RecoverAll(w).1.value)
    decreases |Leftover(w)|
  {
    hide RecoverIntent, StopsAt;
    if Leftover(w) == {} {
      assert forall i :: i in w.intents ==> i !in Leftover(w);
    } else {
      var id := First(w);
      if RecoverIntent(w, id).Success? {
        var one := RecoverIntent(w, id).value;
        RecoverIntentFrame(w, id);
        RecoveryShrinks(w, id);
        RecoverAllSound(one);
        SettledStays(one, id);
        SameHistoryTwice(w, one, RecoverAll(one).0);
        if RecoverAll(w).1.Some? {
          StopsLater(w, one, RecoverAll(w).0, id, RecoverAll(w).1.value);
        }
      } else {
        StopsHere(w, id);
      }
    }
  }

  lemma SameHistoryTwice(a: World, b: World, c: World)
    requires SameHistory(a, b) && SameHistory(b, c)
    ensures SameHistory(a, c)
  {
  }

  lemma LeftWasLeft(w: World, w': World, id: IntentId)
    requires SameHistory(w, w') && id in Leftover(w')
    ensures id in Leftover(w)
  {
  }

  // Where a recovery stopped: everything before is settled, the rest untouched.
  ghost predicate StopsAt(w: World, w': World, trouble: Trouble) {
    && trouble.id in Leftover(w') && RecoverIntent(w', trouble.id) == Failure(trouble)
    && forall i :: i in Leftover(w) ==>
         i in w'.intents && if i < trouble.id then !Incomplete(w'.intents[i]) else w'.intents[i] == w.intents[i]
  }

  lemma StopsHere(w: World, id: IntentId)
    requires IsLeast(Leftover(w), id) && RecoverIntent(w, id).Failure?
    ensures StopsAt(w, w, RecoverIntent(w, id).error)
  {
    hide Decide, Accepted;
  }

  lemma StopsLater(w: World, one: World, w': World, id: IntentId, trouble: Trouble)
    requires id in Leftover(w) && (forall i :: i in Leftover(w) ==> id <= i)
    requires Leftover(one) == Leftover(w) - {id} && (forall i :: i in w.intents && i != id ==> i in one.intents && one.intents[i] == w.intents[i])
    requires StopsAt(one, w', trouble) && SameHistory(one, w') && id in one.intents && !Incomplete(one.intents[id])
    requires id in w'.intents && w'.intents[id] == one.intents[id]
    ensures StopsAt(w, w', trouble)
  {
    hide RecoverIntent;
    assert trouble.id != id;
    forall i | i in Leftover(w)
      ensures i in w'.intents && if i < trouble.id then !Incomplete(w'.intents[i]) else w'.intents[i] == w.intents[i]
    {
      if i == id {
        LeftWasLeft(one, w', trouble.id);
      } else {
        assert i in Leftover(one);
      }
    }
  }

  // Recovery does not touch a settled row.
  lemma {:induction false} SettledStays(w: World, id: IntentId)
    requires id in w.intents && !Incomplete(w.intents[id])
    ensures id in RecoverAll(w).0.intents && RecoverAll(w).0.intents[id] == w.intents[id]
    decreases |Leftover(w)|
  {
    hide RecoverIntent;
    if Leftover(w) != {} && RecoverIntent(w, First(w)).Success? {
      RecoverIntentFrame(w, First(w));
      RecoveryShrinks(w, First(w));
      SettledStays(RecoverIntent(w, First(w)).value, id);
    }
  }

  // In a state with one leftover row, recovery is the recovery of that row.
  lemma OneLeft(w: World, id: IntentId)
    requires Leftover(w) == {id}
    ensures var one := RecoverIntent(w, id);
            RecoverAll(w) == if one.Success? then (one.value, None) else (w, Some(one.error))
  {
    hide RecoverIntent;
    assert First(w) == id;
    if RecoverIntent(w, id).Success? {
      RecoveryShrinks(w, id);
    }
  }

  /** In tidy runs a whole recovery succeeds if and only if no row is half applied or refused. */
  lemma TidyRecoverySucceeds(c: Config, run: seq<World>, k: nat)
    requires Tidy(c, run) && k < |run|
    ensures RecoverAll(run[k]).1 == None <==>
            forall i :: i in run[k].intents ==> !HalfApplied(run[k].intents[i]) && !Refused(run[k], run[k].intents[i])
  {
    hide RecoverAll, RecoverIntent, HalfApplied, Refused, TidyInv, IsRun, Progressed;
    var w := run[k];
    if Leftover(w) == {} {
      NothingLeft(w);
      NoneIsStuck(w);
    } else {
      var id :| id in Leftover(w);
      RowsTellTheTruth(c, run, k, id);
      assert Leftover(w) == {id};
      OneLeft(w, id);
      RecoverySettles(c, run, k, id);
      OthersAreSettled(w, id);
    }
  }

  lemma NothingLeft(w: World)
    requires Leftover(w) == {}
    ensures NoneIncomplete(w) && RecoverAll(w) == (w, None)
  {
    forall i | i in w.intents
      ensures !Incomplete(w.intents[i])
    {
      assert i !in Leftover(w);
    }
  }

  lemma NoneIsStuck(w: World)
    requires NoneIncomplete(w)
    ensures forall i :: i in w.intents ==> !HalfApplied(w.intents[i]) && !Refused(w, w.intents[i])
  {
  }

  lemma OthersAreSettled(w: World, id: IntentId)
    requires Leftover(w) == {id}
    ensures forall i :: i in w.intents && i != id ==> !HalfApplied(w.intents[i]) && !Refused(w, w.intents[i])
  {
    forall i | i in w.intents && i != id
      ensures !Incomplete(w.intents[i])
    {
      assert i !in Leftover(w);
    }
  }

  // One step moves a branch only to a descendant, and never drops a managed default.
  lemma StepAdvancesBranches(c: Config, w: World, s: Step, name: RefName)
    requires Inv(c, w) && Enabled(c, w, s) && IsBranch(name) && name in w.refs
    ensures name in Effect(c, w, s).refs ==> Ancestor(c.universe, w.refs[name], Effect(c, w, s).refs[name])
    ensures c.managed && name == c.defaultBranch ==> name in Effect(c, w, s).refs
  {
    ReachesSelf(Parents(c.universe), w.refs[name]);
    if s.Apply? {
      var i := w.intents[w.job.id];
      assert EditAllowed(c, i.edits[i.applied]);
    } else if s.WritePullRef? {
      PullsAreApart(s.pullRef, name);
    } else {
      hide Enabled, Effect, Inv;
      StepFrame(c, w, s);
    }
  }

  /**
   A branch that is never absent between two states of a run has, in the
   later one, a target that descends from the earlier one.
   */
  lemma {:induction false} BranchesOnlyAdvance(c: Config, run: seq<World>, i: nat, j: nat, name: RefName)
    requires IsRun(c, run) && i <= j < |run| && IsBranch(name)
    requires forall k :: i <= k <= j ==> name in run[k].refs
    ensures Ancestor(c.universe, run[i].refs[name], run[j].refs[name])
    decreases j - i
  {
    hide Enabled, Effect, Inv, Reaches, IsRun;
    ReachesSelf(Parents(c.universe), run[i].refs[name]);
    if i < j {
      BranchesOnlyAdvance(c, run, i, j - 1, name);
      var s := StepInRun(c, run, j);
      RunKeepsInv(c, run, j - 1);
      StepAdvancesBranches(c, run[j - 1], s, name);
      ReachesTransitive(Parents(c.universe), run[j].refs[name], run[j - 1].refs[name], run[i].refs[name]);
    }
  }

  /**
   On a managed server the default branch, once present, is never removed, and
   every later target descends from every earlier one.
   */
  lemma {:induction false} DefaultBranchStays(c: Config, run: seq<World>, i: nat, j: nat)
    requires IsRun(c, run) && i <= j < |run|
    requires c.managed && IsBranch(c.defaultBranch) && c.defaultBranch in run[i].refs
    ensures forall k :: i <= k <= j ==> c.defaultBranch in run[k].refs
    ensures Ancestor(c.universe, run[i].refs[c.defaultBranch], run[j].refs[c.defaultBranch])
    decreases j - i
  {
    hide Enabled, Effect, Inv, Reaches, IsRun;
    if i < j {
      DefaultBranchStays(c, run, i, j - 1);
      var s := StepInRun(c, run, j);
      RunKeepsInv(c, run, j - 1);
      StepAdvancesBranches(c, run[j - 1], s, c.defaultBranch);
    }
    BranchesOnlyAdvance(c, run, i, j, c.defaultBranch);
  }

  /**
   Runs need pushes and merges not to overlap.  They take different locks, and
   the recovery of a failing push covers every incomplete intent, also one
   whose operation is still running.  That operation can then neither mark nor
   complete its row, and it still moves a reference exactly when it had marked
   its row and not moved any yet.
   */
  lemma OverlapAbandonsALiveOperation(c: Config, w: World)
    requires Inv(c, w) && Working(w.job) && RecoverIntent(w, w.job.id).Success?
    ensures var w1 := RecoverIntent(w, w.job.id).value;
            && !Enabled(c, w1, Mark) && !Enabled(c, w1, GitIntents.Step.Complete)
            && (Enabled(c, w1, Apply) <==> w.job.Applying? && w.intents[w.job.id].applied == 0)
            && (Enabled(c, w1, Apply) ==>
                  var w2 := Effect(c, w1, Apply);
                  w2.intents[w.job.id].state == Abandoned && w2.intents[w.job.id].applied == 1
                  && TargetOf(w2.refs, Edits(w)[0].name) == Edits(w)[0].after
                  && !Enabled(c, w2, GitIntents.Step.Complete))
  {
    var row := w.intents[w.job.id];
    assert RowShaped(row) && Progressed(w.refs, row);
    DecisionFits(w.refs, row);
    var w1 := RecoverIntent(w, w.job.id).value;
    hide Decide, AtInitial, AtProposed, Accepted;
    if w.job.Applying? && row.applied == 0 {
      assert TargetOf(w.refs, row.edits[0].name) == row.edits[0].before;
    }
  }

  // A pack whose files an operation or a recovery may still look at.
  ghost predicate Claimed(w: World, name: PackName) {
    || (w.job.Indexed? && w.job.name == name)
    || (w.job.Filed? && w.job.pack == Some(name))
    || exists i :: RecordsPack(w, i) && w.intents[i].pack == Some(name)
  }

  // An index without its pack, which nothing will clean up.
  ghost predicate Stray(w: World, name: PackName) {
    name in w.indexes && name !in w.packs && !Claimed(w, name)
  }

  // The process dies between the two renames of a promotion, or the second
  // rename fails and so does taking back the first.
  predicate Strands(w: World, s: Step, name: PackName) {
    w.job.Indexed? && w.job.name == name && (s == Crash || s == UndoIndex(false))
  }

  // A row is completed while its pack has no file and its index is still there.
  ghost predicate KeepsFileless(w: World, s: Step, name: PackName) {
    s.RecoverKeep? && RecordsPack(w, s.id) && w.intents[s.id].pack == Some(name) && name in w.indexes && name !in w.packs
  }

  // No row records the pack, but for the one being completed.
  ghost predicate NoOtherClaim(w: World, s: Step, name: PackName) {
    forall i :: RecordsPack(w, i) && w.intents[i].pack == Some(name) ==> s.RecoverKeep? && i == s.id
  }

  lemma StrandingMakesStray(c: Config, w: World, s: Step, name: PackName)
    requires Inv(c, w) && Enabled(c, w, s) && Strands(w, s, name) && NoOtherClaim(w, s, name)
    ensures Stray(Effect(c, w, s), name)
  {
    hide Allowed, RowsShaped, Progressed;
    var w' := Effect(c, w, s);
    assert forall i :: RecordsPack(w', i) ==> RecordsPack(w, i) && w'.intents[i] == w.intents[i];
  }

  lemma KeepingMakesStray(c: Config, w: World, s: Step, name: PackName)
    requires Enabled(c, w, s) && KeepsFileless(w, s, name) && NoOtherClaim(w, s, name)
    ensures Stray(Effect(c, w, s), name)
  {
    hide Decide, Accepted;
    var w' := Effect(c, w, s);
    assert forall i :: RecordsPack(w', i) ==> i != s.id && RecordsPack(w, i) && w'.intents[i] == w.intents[i];
  }

  lemma StrayStays(c: Config, w: World, s: Step, name: PackName)
    requires Inv(c, w) && Enabled(c, w, s) && Stray(w, name)
    ensures Stray(Effect(c, w, s), name)
  {
    if Claimed(Effect(c, w, s), name) {
      ClaimsAreOld(c, w, s, name);
    }
    hide Inv;
    if s.RemoveIndex? {
      hide Decide;
      assert RecordsPack(w, s.id);
    } else if s.UndoIndex? || s.PlacePack? || s.PlaceIndex? || s.RemovePack? {
      hide Validated, Decide;
    } else {
      hide Enabled, Effect;
      StepFrame(c, w, s);
    }
  }

  // Only placing an index claims a pack that was not claimed.
  lemma ClaimsAreOld(c: Config, w: World, s: Step, name: PackName)
    requires Inv(c, w) && Enabled(c, w, s) && Claimed(Effect(c, w, s), name)
    ensures Claimed(w, name) || (s.PlaceIndex? && s.name == name)
  {
    hide Inv;
    var w' := Effect(c, w, s);
    if s.Mark? || s.PlaceIndex? || s.PlacePack? || s.FileNothing? || s.FileExisting? || s.FileMerge? || Advances(s) {
      hide Enabled, Effect;
      OwnClaims(c, w, s, name);
    } else {
      if !Settles(s) {
        JobStays(c, w, s);
      }
      hide Enabled, Effect;
      StepFrame(c, w, s);
      if Settles(s) {
        SettlingFrame(c, w, s);
      }
      assert forall i :: RecordsPack(w', i) ==> RecordsPack(w, i) && w'.intents[i] == w.intents[i];
    }
  }

  lemma OwnClaims(c: Config, w: World, s: Step, name: PackName)
    requires Enabled(c, w, s) && Claimed(Effect(c, w, s), name)
    requires Advances(s) || s.PlaceIndex? || s.PlacePack? || s.FileNothing? || s.FileExisting? || s.FileMerge?
    ensures Claimed(w, name) || (s.PlaceIndex? && s.name == name)
  {
    hide Validated, MergeValidated, Decide, Present, AtInitial, WellFormed, Accepted;
    var w' := Effect(c, w, s);
    assert forall i :: RecordsPack(w', i) && !(s.Mark? && i == w.job.id) ==> RecordsPack(w, i) && w'.intents[i].pack == w.intents[i].pack;
  }

  // What one step takes away from the claims on a pack whose file is not there.
  lemma WorkersKeepClaims(c: Config, w: World, s: Step, name: PackName)
    requires Inv(c, w) && Enabled(c, w, s) && Working(w.job) && !(w.job.Indexed? && w.job.name == name)
    requires Claimed(w, name) && name !in w.packs
    ensures Claimed(Effect(c, w, s), name)
  {
    hide Enabled, Effect, WellFormed, Progressed, Allowed;
    var i :| RecordsPack(w, i) && w.intents[i].pack == Some(name);
    assert RowShaped(w.intents[i]);
    assert i != w.job.id;
    OtherRowsStay(c, w, s, i);
    assert RecordsPack(Effect(c, w, s), i);
  }

  lemma OtherRowsStay(c: Config, w: World, s: Step, i: IntentId)
    requires Enabled(c, w, s) && Working(w.job) && i in w.intents && i != w.job.id
    ensures i in Effect(c, w, s).intents && Effect(c, w, s).intents[i] == w.intents[i]
  {
    if Advances(s) || Settles(s) {
      hide Decide, Validated, MergeValidated, Present, AtInitial, WellFormed, Accepted;
    } else {
      hide Enabled, Effect;
      StepFrame(c, w, s);
    }
  }

  lemma RecoveryKeepsClaims(c: Config, w: World, s: Step, name: PackName)
    requires Inv(c, w) && Enabled(c, w, s) && Recovering(w) && Settles(s)
    requires Claimed(w, name) && name in w.indexes && name !in w.packs && !Claimed(Effect(c, w, s), name)
    ensures KeepsFileless(w, s, name) && NoOtherClaim(w, s, name)
  {
    hide Allowed, WellFormed, AtInitial, Accepted, Progressed, JobSound;
    var w' := Effect(c, w, s);
    assert forall i :: RecordsPack(w, i) && i != s.id ==> RecordsPack(w', i) && w'.intents[i] == w.intents[i];
    forall i | RecordsPack(w, i) && w.intents[i].pack == Some(name)
      ensures s.RecoverKeep? && i == s.id
    {
      assert RowShaped(w.intents[i]);
    }
  }

  lemma NothingElseStrands(c: Config, w: World, s: Step, name: PackName)
    requires Inv(c, w) && Enabled(c, w, s) && !Stray(w, name) && Stray(Effect(c, w, s), name)
    ensures (Strands(w, s, name) || KeepsFileless(w, s, name)) && NoOtherClaim(w, s, name)
  {
    hide Inv, Strands, KeepsFileless, NoOtherClaim;
    if w.job.Indexed? && w.job.name == name {
      hide Enabled, Effect, Stray;
      PlacersStrand(c, w, s, name);
    } else if Working(w.job) {
      hide Claimed;
      WorkersStrandNothing(c, w, s, name);
    } else if Settles(s) {
      hide Effect, Claimed;
      StepFrame(c, w, s);
      RecoveryKeepsClaims(c, w, s, name);
    } else {
      hide Claimed;
      IdlersKeepClaims(c, w, s, name);
    }
  }

  lemma PlacersStrand(c: Config, w: World, s: Step, name: PackName)
    requires Inv(c, w) && Enabled(c, w, s) && w.job.Indexed? && w.job.name == name && Stray(Effect(c, w, s), name)
    ensures Strands(w, s, name) && NoOtherClaim(w, s, name)
  {
    hide Decide, Accepted, Progressed, Allowed, RowsShaped;
    var w' := Effect(c, w, s);
    assert w'.intents == w.intents ==> forall i :: RecordsPack(w, i) ==> RecordsPack(w', i);
  }

  lemma WorkersStrandNothing(c: Config, w: World, s: Step, name: PackName)
    requires Inv(c, w) && Enabled(c, w, s) && Working(w.job) && !(w.job.Indexed? && w.job.name == name) && !Stray(w, name)
    ensures !Stray(Effect(c, w, s), name)
  {
    if Claimed(w, name) && name !in w.packs {
      WorkersKeepClaims(c, w, s, name);
    }
    hide Validated, MergeValidated, Decide, Present, AtInitial, WellFormed, Accepted, Inv;
    if s.PlaceIndex? && s.name == name {
    } else if s.PlaceIndex? || s.UndoIndex? || s.PlacePack? {
      hide Claimed;
    } else {
      hide Enabled, Effect, Claimed;
      StepFrame(c, w, s);
      NoRemovalAtWork(c, w, s);
    }
  }

  lemma NoRemovalAtWork(c: Config, w: World, s: Step)
    requires Enabled(c, w, s) && Working(w.job)
    ensures !s.RemovePack? && !s.RemoveIndex?
  {
    hide Decide;
  }

  lemma IdlersKeepClaims(c: Config, w: World, s: Step, name: PackName)
    requires Enabled(c, w, s) && !Working(w.job) && !Settles(s) && !Stray(w, name)
    ensures !Stray(Effect(c, w, s), name)
  {
    hide Validated, MergeValidated, Decide, Present, AtInitial, WellFormed, Accepted;
    var w' := Effect(c, w, s);
    assert forall i :: RecordsPack(w, i) ==> RecordsPack(w', i) && w'.intents[i] == w.intents[i];
    if s.RemovePack? && w.intents[s.id].pack == Some(name) {
      assert RecordsPack(w', s.id);
    }
  }

  /**
   Over every run an index is stranded by exactly three things, unless another
   row still records its pack: the process dies between the two renames, the
   second fails and taking back the first fails as well, or recovery completes a
   row whose pack it had begun to delete.
   */
  lemma StrayExactly(c: Config, w: World, s: Step, name: PackName)
    requires Inv(c, w) && Enabled(c, w, s)
    ensures Stray(Effect(c, w, s), name) <==>
            Stray(w, name) || ((Strands(w, s, name) || KeepsFileless(w, s, name)) && NoOtherClaim(w, s, name))
  {
    hide Inv, Enabled, Effect, Stray, Strands, KeepsFileless, NoOtherClaim;
    if Stray(w, name) {
      StrayStays(c, w, s, name);
    } else if (Strands(w, s, name) || KeepsFileless(w, s, name)) && NoOtherClaim(w, s, name) {
      if Strands(w, s, name) {
        StrandingMakesStray(c, w, s, name);
      } else {
        KeepingMakesStray(c, w, s, name);
      }
    } else if Stray(Effect(c, w, s), name) {
      NothingElseStrands(c, w, s, name);
    }
  }

  /** In guarded runs the third cannot happen: a row is completed only with its pack in place. */
  lemma GuardedKeepsFiles(c: Config, w: World, s: Step, name: PackName)
    requires SafeInv(c, w) && Enabled(c, w, s)
    ensures !KeepsFileless(w, s, name)
  {
    if s.RecoverKeep? && RecordsPack(w, s.id) {
      hide Decide, ObjectsReady, ObjectsSafe, Allowed, Progressed, WellFormed;
      assert RowShaped(w.intents[s.id]);
      DecisionFits(w.refs, w.intents[s.id]);
      SomeEdit(w.intents[s.id]);
    }
  }

  lemma SomeEdit(i: Intent)
    requires RowShaped(i)
    ensures |i.edits| > 0
  {
  }

  lemma {:induction false} StrayLasts(c: Config, run: seq<World>, i: nat, j: nat, name: PackName)
    requires IsRun(c, run) && i <= j < |run| && Stray(run[i], name)
    ensures Stray(run[j], name)
    decreases j - i
  {
    hide Enabled, Effect, Inv, IsRun, Stray;
    if i < j {
      StrayLasts(c, run, i, j - 1, name);
      var s := StepInRun(c, run, j);
      RunKeepsInv(c, run, j - 1);
      StrayStays(c, run[j - 1], s, name);
    }
  }

  /**
   A stray index is never cleaned up by any continuation of the run, and no
   later push of that pack gets past the check that file and index agree.
   */
  lemma StrayBlocksForever(c: Config, run: seq<World>, i: nat, j: nat, name: PackName, s: Step)
    requires IsRun(c, run) && i <= j < |run| && Stray(run[i], name)
    requires (s.PlaceIndex? || s.FileExisting?) && s.name == name
    ensures Stray(run[j], name) && !Enabled(c, run[j], s)
  {
    StrayLasts(c, run, i, j, name);
  }

  // The moment between two states at which an index was stranded.
  predicate StrandedAt(run: seq<World>, i: nat, name: PackName)
    requires i + 1 < |run|
  {
    && run[i].job.Indexed? && run[i].job.name == name
    && (run[i + 1].job == Down || run[i + 1].job == Halted) && name in run[i + 1].indexes
  }

  /** Every stray index of a guarded run has its moment, between the two renames of a promotion. */
  lemma {:induction false} StrayHasItsMoment(c: Config, run: seq<World>, j: nat, name: PackName)
    requires Guarded(c, run) && j < |run| && Stray(run[j], name) && !Stray(run[0], name)
    ensures exists i :: 0 <= i < j && StrandedAt(run, i, name)
  {
    hide Enabled, Effect, SafeInv, Inv, Guarded, IsRun, KeepsFileless;
    assert j > 0;
    GuardedIsRun(c, run);
    var s := StepInRun(c, run, j);
    RunKeepsSafe(c, run, j - 1);
    RunKeepsInv(c, run, j - 1);
    StrayExactly(c, run[j - 1], s, name);
    GuardedKeepsFiles(c, run[j - 1], s, name);
    if Stray(run[j - 1], name) {
      StrayHasItsMoment(c, run, j - 1, name);
    } else {
      StrandingStops(c, run[j - 1], s, name);
      assert StrandedAt(run, j - 1, name);
    }
  }

  lemma GuardedIsRun(c: Config, run: seq<World>)
    requires Guarded(c, run)
    ensures IsRun(c, run)
  {
  }

  lemma StrandingStops(c: Config, w: World, s: Step, name: PackName)
    requires Enabled(c, w, s) && Strands(w, s, name)
    ensures Effect(c, w, s).job == Down || Effect(c, w, s).job == Halted
  {
  }

}
