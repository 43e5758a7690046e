/**
 Opening, revising and recovering pull requests as the service does it, with
 the moves of pushes, of their recovery and of closing or reopening passed in as
 what happens between two of its own steps.  Each operation is a run of the step
 system.
 */
module PullRequestService {
  import opened Outcomes
  import opened Refs
  import opened PullRequestRefs

  datatype ServiceError = Died | NotOpen | Unchanged | RefUpdate | Recovery(error: RecoveryError)

  // How a reference update ends: an error may come before or after the reference is written.
  datatype Update = Works | FailsBefore | FailsAfter

  // The row is completed as it was proposed, and reference and record are its head.
  predicate RolledForward(before: Forge, after: Forge, id: IntentId)
    requires id in before.intents
  {
    && id in after.intents && after.intents[id] == before.intents[id].(state := Completed)
    && TargetOf(after.refs, PullRef(before.intents[id].number)) == Some(before.intents[id].proposed.head)
    && Recorded(after, before.intents[id].number) == Some(before.intents[id].proposed.head)
  }

  predicate LeftWritten(f: Forge, id: IntentId) {
    IsPending(f, id) && TargetOf(f.refs, PullRef(f.intents[id].number)) == Some(f.intents[id].proposed.head)
  }

  // The service answers what the recovery of the row ended with.
  predicate Answers(r: Result<(), ServiceError>, recovered: Result<(), RecoveryError>) {
    if recovered.Success? then r.Success? else r == Failure(Recovery(recovered.error))
  }

  lemma OnlyOnePending(f: Forge, id: IntentId)
    requires Inv(f) && IsPending(f, id)
    ensures forall i :: IsPending(f, i) ==> i == id
  {
  }

  // Recovery in its two moves: the reference if need be, then the row.
  lemma RecoverIs(f: Forge, id: IntentId, written: Forge, after: Forge, completes: bool)
    requires IsPending(f, id) && TargetOf(f.refs, PullRef(f.intents[id].number)) in {f.intents[id].before, Some(f.intents[id].proposed.head)}
    requires if TargetOf(f.refs, PullRef(f.intents[id].number)) == Some(f.intents[id].proposed.head) then written == f
             else Enabled(f, WriteRef(id)) && written == Effect(f, WriteRef(id))
    requires id in written.intents && written.intents[id] == f.intents[id]
    requires completes <==> StoreCompletes(written, f.intents[id])
    requires if completes then Enabled(written, Complete(id)) && after == Effect(written, Complete(id)) else after == written
    ensures Recover(f, id) == (after, if completes then Success(()) else Failure(IntentStateError))
  {
    hide Effect, Enabled, StoreCompletes, PullRef;
  }

  class Service {
    var forge: Forge
    ghost var run: seq<Forge>

    ghost predicate Valid()
      reads this
    {
      |run| > 0 && IsRun(run) && run[|run| - 1] == forge
    }

    constructor (refs: RefStore)
      requires forall n :: PullRef(n) !in refs
      ensures Valid() && forge == Forge(refs, map[], map[], {}, 1)
    {
      forge := Forge(refs, map[], map[], {}, 1);
      run := [Forge(refs, map[], map[], {}, 1)];
    }

    method Advance(s: Step)
      requires Valid() && Enabled(forge, s)
      modifies this
      ensures Valid() && forge == Effect(old(forge), s) && run == old(run) + [forge]
    {
      ExtendRun(run, s);
      forge := Effect(forge, s);
      run := run + [forge];
    }

    // What pushes, the recovery of pushes and unlocked state changes do meanwhile.
    method Meanwhile(moves: seq<Step>)
      requires Valid()
      modifies this
      ensures Valid() && old(run) <= run
      ensures forge.intents == old(forge.intents) && forge.nextNumber == old(forge.nextNumber)
      ensures forall n :: TargetOf(forge.refs, PullRef(n)) == TargetOf(old(forge.refs), PullRef(n))
      ensures forall n :: Recorded(forge, n) == Recorded(old(forge), n)
      ensures moves == [] ==> forge == old(forge)
    {
      hide IsRun, PullRef;
      for k := 0 to |moves|
        invariant Valid() && old(run) <= run
        invariant forge.intents == old(forge.intents) && forge.nextNumber == old(forge.nextNumber)
        invariant forall n :: TargetOf(forge.refs, PullRef(n)) == TargetOf(old(forge.refs), PullRef(n))
        invariant forall n :: Recorded(forge, n) == Recorded(old(forge), n)
        invariant k == 0 ==> forge == old(forge)
      {
        var s := moves[k];
        if s.Push? && Enabled(forge, s) {
          forall n
            ensures PullRef(n) != s.name
          {
            PullRefsAreApart(n, s.name);
          }
          Advance(s);
        } else if (s.SetState? || s.MarkMerged? || s.DropMerge?) && Enabled(forge, s) {
          Advance(s);
        }
      }
    }

    /**
     Writes the reference of a fresh intent and completes the row, or gives the
     intent up.  After an error it looks at the reference: one that was written
     all the same counts as written.
     */
    method ApplyIntent(id: IntentId, update: Update, meanwhile: seq<Step>, dies: bool) returns (r: Result<(), ServiceError>)
      requires Valid() && IsPending(forge, id)
      requires TargetOf(forge.refs, PullRef(forge.intents[id].number)) == forge.intents[id].before
      modifies this
      ensures Valid() && old(run) <= run && id in forge.intents
      ensures forge.intents[id].number == old(forge.intents[id].number) && forge.intents[id].proposed == old(forge.intents[id].proposed)
      ensures r.Success? ==>
                && NonePending(forge)
                && Recorded(forge, forge.intents[id].number) == Some(forge.intents[id].proposed.head)
                && TargetOf(forge.refs, PullRef(forge.intents[id].number)) == Some(forge.intents[id].proposed.head)
      ensures r == Failure(RefUpdate) ==> forge.intents[id].state == Abandoned && forge.refs == old(forge.refs)
      ensures r == Failure(RefUpdate) <==>
                update == FailsBefore && old(forge.intents[id].before) != Some(old(forge.intents[id].proposed.head))
      ensures r.Failure? ==> r.error == RefUpdate || r.error == Died || r.error == Recovery(IntentStateError)
      ensures r.Success? ==> forge.intents[id].state == Completed
      ensures r == Failure(Died) ==> dies && LeftWritten(forge, id)
      ensures r == Failure(Recovery(IntentStateError)) ==> LeftWritten(forge, id) && !Acceptable(forge, forge.intents[id])
    {
      hide IsRun, PullRef, NonePending, Effect, Enabled, RefAgrees;
      if update != FailsBefore {
        WriteHead(id);
      }
      if update != Works {
        var current := TargetOf(forge.refs, PullRef(forge.intents[id].number));
        if current != Some(forge.intents[id].proposed.head) {
          GiveUp(id);
          return Failure(RefUpdate);
        }
      }
      Meanwhile(meanwhile);
      if dies {
        return Failure(Died);
      }
      r := CompleteRow(id);
    }

    method GiveUp(id: IntentId)
      requires Valid() && IsPending(forge, id)
      requires TargetOf(forge.refs, PullRef(forge.intents[id].number)) == forge.intents[id].before != Some(forge.intents[id].proposed.head)
      modifies this
      ensures Valid() && old(run) <= run && id in forge.intents
      ensures forge.intents == old(forge.intents)[id := old(forge.intents[id]).(state := Abandoned)] && forge.refs == old(forge.refs)
    {
      Advance(Abandon(id));
    }

    method WriteHead(id: IntentId)
      requires Valid() && IsPending(forge, id)
      requires TargetOf(forge.refs, PullRef(forge.intents[id].number)) == forge.intents[id].before
      modifies this
      ensures Valid() && old(run) <= run && forge.intents == old(forge.intents) && forge.pulls == old(forge.pulls)
      ensures TargetOf(forge.refs, PullRef(forge.intents[id].number)) == Some(forge.intents[id].proposed.head)
      ensures Enabled(old(forge), WriteRef(id)) && forge == Effect(old(forge), WriteRef(id))
    {
      Advance(WriteRef(id));
    }

    method CompleteRow(id: IntentId) returns (r: Result<(), ServiceError>)
      requires Valid() && IsPending(forge, id)
      requires TargetOf(forge.refs, PullRef(forge.intents[id].number)) == Some(forge.intents[id].proposed.head)
      modifies this
      ensures Valid() && old(run) <= run && id in forge.intents && forge.refs == old(forge.refs)
      ensures forge.intents[id].number == old(forge.intents[id].number) && forge.intents[id].proposed == old(forge.intents[id].proposed)
      ensures forge.intents.Keys == old(forge.intents).Keys
      ensures r.Success? ==> NonePending(forge) && Recorded(forge, forge.intents[id].number) == Some(forge.intents[id].proposed.head)
      ensures r.Success? <==> old(Acceptable(forge, forge.intents[id]))
      ensures r.Success? <==> old(StoreCompletes(forge, forge.intents[id]))
      ensures r.Success? ==> Enabled(old(forge), Complete(id)) && forge == Effect(old(forge), Complete(id))
      ensures r.Success? ==> forge.intents == old(forge.intents)[id := old(forge.intents)[id].(state := Completed)]
      ensures r.Failure? ==> r.error == Recovery(IntentStateError) && forge == old(forge)
    {
      RunKeepsInv(run, |run| - 1);
      PendingRefKnown(forge, id);
      if !StoreCompletes(forge, forge.intents[id]) {
        return Failure(Recovery(IntentStateError));
      }
      CompletionSettles(forge, id);
      Advance(Complete(id));
      r := Success(());
    }

    /**
     Rolls the pending intent forward: the reference is written if it is not at
     the new head yet, and the row completed.  A second death in between, or a
     refusal of the row, leaves the row pending with its reference written, so
     the next attempt starts from there.
     */
    method RecoverInner(meanwhile: seq<Step>, dies: bool) returns (r: Result<(), ServiceError>)
      requires Valid()
      modifies this
      ensures Valid() && old(run) <= run
      ensures forge.intents.Keys == old(forge.intents).Keys
      ensures NonePending(old(forge)) ==> r.Success? && forge == old(forge)
      ensures r.Success? ==> NonePending(forge)
      ensures r.Success? ==> forall id :: IsPending(old(forge), id) ==> RolledForward(old(forge), forge, id)
      ensures r.Failure? ==> forall id :: IsPending(old(forge), id) ==> LeftWritten(forge, id)
      ensures r.Failure? ==> r.error == Died || r.error == Recovery(IntentStateError)
      ensures r == Failure(Died) <==> dies && !NonePending(old(forge))
      ensures r == Failure(Recovery(IntentStateError)) ==> exists id :: IsPending(forge, id) && !Acceptable(forge, forge.intents[id])
      // With nothing in between it is the recovery of the one pending intent.
      ensures meanwhile == [] && !dies ==> forall id :: IsPending(old(forge), id) ==>
                && forge == Recover(old(forge), id).0
                && Answers(r, Recover(old(forge), id).1)
    {
      hide IsRun, PullRef, Effect, Enabled, RefAgrees, StoreCompletes, Acceptable, Recorded;
      if NonePending(forge) {
        return Success(());
      }
      var id :| id in forge.intents && forge.intents[id].state == Pending;
      RunKeepsInv(run, |run| - 1);
      PendingRefKnown(forge, id);
      OnlyOnePending(forge, id);
      if TargetOf(forge.refs, PullRef(forge.intents[id].number)) != Some(forge.intents[id].proposed.head) {
        WriteHead(id);
      }
      ghost var written := forge;
      Meanwhile(meanwhile);
      if dies {
        return Failure(Died);
      }
      r := CompleteRow(id);
      if meanwhile == [] {
        RecoverIs(old(forge), id, written, forge, r.Success?);
      }
    }

    /** A new pull request, or the next revision of an open one, after recovering what was left over. */
    method Revise(id: IntentId, number: Option<nat>, proposed: Revision, update: Update,
                  meanwhile: seq<seq<Step>>, diesRecovering: bool, diesAfterIntent: bool, diesAfterRef: bool)
      returns (r: Result<nat, ServiceError>)
      requires Valid() && id !in forge.intents && |meanwhile| == 3
      modifies this
      ensures Valid() && old(run) <= run
      ensures r.Success? ==>
                && NonePending(forge) && Recorded(forge, r.value) == Some(proposed.head)
                && TargetOf(forge.refs, PullRef(r.value)) == Some(proposed.head)
                && (number.Some? ==> r.value == number.value)
      ensures r.Failure? ==> r.error != Recovery(MixedRecovery)
      ensures r == Failure(Died) ==> diesRecovering || diesAfterIntent || diesAfterRef
    {
      var recovered := RecoverInner(meanwhile[0], diesRecovering);
      if recovered.Failure? {
        return Failure(recovered.error);
      }
      r := ReviseRecovered(id, number, proposed, update, meanwhile[1], meanwhile[2], diesAfterIntent, diesAfterRef);
    }

    method ReviseRecovered(id: IntentId, number: Option<nat>, proposed: Revision, update: Update,
                           first: seq<Step>, second: seq<Step>, diesAfterIntent: bool, diesAfterRef: bool)
      returns (r: Result<nat, ServiceError>)
      requires Valid() && NonePending(forge) && id !in forge.intents
      modifies this
      ensures Valid() && old(run) <= run
      ensures r.Success? ==>
                && NonePending(forge) && Recorded(forge, r.value) == Some(proposed.head)
                && TargetOf(forge.refs, PullRef(r.value)) == Some(proposed.head)
                && (number.Some? ==> r.value == number.value)
      ensures r.Failure? ==> r.error != Recovery(MixedRecovery)
      ensures r == Failure(NotOpen) <==>
                number.Some? && (number.value !in old(forge.pulls) || old(forge.pulls)[number.value].state != Open)
      ensures r == Failure(Unchanged) <==>
                && number.Some? && number.value in old(forge.pulls) && old(forge.pulls)[number.value].state == Open
                && LastRevision(old(forge.pulls)[number.value]) == Some(proposed)
      ensures r == Failure(NotOpen) || r == Failure(Unchanged) ==> forge == old(forge)
      ensures r == Failure(Died) ==> diesAfterIntent || diesAfterRef
      ensures r.Failure? && r.error.RefUpdate? ==> update == FailsBefore
    {
      if number.Some? && (number.value !in forge.pulls || forge.pulls[number.value].state != Open) {
        return Failure(NotOpen);
      }
      if number.Some? && LastRevision(forge.pulls[number.value]) == Some(proposed) {
        return Failure(Unchanged);
      }
      BeginRow(id, number, proposed);
      Meanwhile(first);
      if diesAfterIntent {
        return Failure(Died);
      }
      var applied := ApplyIntent(id, update, second, diesAfterRef);
      r := if applied.Success? then Success(forge.intents[id].number) else Failure(applied.error);
    }

    method BeginRow(id: IntentId, number: Option<nat>, proposed: Revision)
      requires Valid() && NonePending(forge) && id !in forge.intents
      requires number.Some? ==> number.value in forge.pulls && forge.pulls[number.value].state == Open
      requires number.Some? ==> LastRevision(forge.pulls[number.value]) != Some(proposed)
      modifies this
      ensures Valid() && old(run) <= run
      ensures IsPending(forge, id) && forge.intents[id].proposed == proposed
      ensures number.Some? ==> forge.intents[id].number == number.value
      ensures TargetOf(forge.refs, PullRef(forge.intents[id].number)) == forge.intents[id].before
    {
      RunKeepsInv(run, |run| - 1);
      ghost var n := if number.Some? then number.value else forge.nextNumber;
      assert RefAgrees(forge, n);
      if number.Some? {
        Advance(BeginRevise(id, number.value, proposed));
      } else {
        Advance(BeginOpen(id, proposed));
      }
    }
  }

}
