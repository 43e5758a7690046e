/**
 The intent behind a change of the default branch: the stored name and HEAD
 live in different stores, and recovery makes them agree again, unless an error
 was reported after HEAD had been written.
 */
module DefaultBranch {
  import opened Outcomes

  type RepositoryId = nat
  type Branch = string

  datatype Intent = Intent(previous: Branch, proposed: Branch)

  // The database rows, at most one intent for each repository, and the HEADs on disk.
  datatype Disk = Disk(stored: map<RepositoryId, Branch>, heads: map<RepositoryId, Branch>, intents: map<RepositoryId, Intent>)

  datatype ChangeError = Died | MissingBranch | DefaultBranchState | IntentExists | NotFound | HeadUpdate

  // How the update of HEAD ends: an error may come before or after it is written.
  datatype Update = Works | FailsBefore | FailsAfter

  // What holds for a repository after every single step.
  ghost predicate Consistent(d: Disk, id: RepositoryId) {
    && id in d.stored && id in d.heads
    && if id in d.intents then
         && d.stored[id] == d.intents[id].previous
         && (d.heads[id] == d.intents[id].previous || d.heads[id] == d.intents[id].proposed)
       else d.stored[id] == d.heads[id]
  }

  // A repository whose intent was abandoned although HEAD had moved.
  ghost predicate Apart(d: Disk, id: RepositoryId) {
    id in d.stored && id in d.heads && id !in d.intents && d.stored[id] != d.heads[id]
  }

  ghost predicate Inv(d: Disk, diverged: set<RepositoryId>) {
    && d.stored.Keys == d.heads.Keys && d.intents.Keys <= d.stored.Keys && diverged <= d.stored.Keys
    && forall id :: id in d.stored ==> if id in diverged then Apart(d, id) else Consistent(d, id)
  }

  // Nothing is left open, and the stored name is the one HEAD points to, but for the diverged repositories.
  ghost predicate Settled(d: Disk, diverged: set<RepositoryId>) {
    && d.intents == map[] && d.stored.Keys == d.heads.Keys
    && forall id :: id in d.stored ==> (d.stored[id] == d.heads[id] <==> id !in diverged)
  }

  lemma NoIntentsMeansSettled(d: Disk, diverged: set<RepositoryId>)
    requires Inv(d, diverged) && d.intents == map[]
    ensures Settled(d, diverged)
  {
    forall id | id in d.stored
      ensures d.stored[id] == d.heads[id] <==> id !in diverged
    {
      assert if id in diverged then Apart(d, id) else Consistent(d, id);
    }
  }

  // What a change needs before it begins, in the order in which it is refused.
  predicate Permitted(d: Disk, id: RepositoryId, present: bool) {
    && id in d.stored && present
    && id in d.heads && d.heads[id] == d.stored[id]
    && id !in d.intents
  }

  class RepositoryService {
    var disk: Disk
    // History: where an error came after HEAD was written.
    ghost var diverged: set<RepositoryId>

    ghost predicate Valid()
      reads this
    {
      Inv(disk, diverged)
    }

    constructor (names: map<RepositoryId, Branch>)
      ensures Valid() && disk == Disk(names, names, map[]) && diverged == {}
    {
      disk := Disk(names, names, map[]);
      diverged := {};
    }

    // The other repositories as they were.
    twostate lemma OthersKept(id: RepositoryId)
      requires Inv(old(disk), old(diverged)) && disk.stored.Keys == old(disk).stored.Keys && disk.heads.Keys == old(disk).heads.Keys
      requires disk.intents.Keys <= disk.stored.Keys && diverged <= disk.stored.Keys
      requires forall k :: k in disk.stored && k != id ==>
                 && disk.stored[k] == old(disk).stored[k] && disk.heads[k] == old(disk).heads[k]
                 && (k in disk.intents <==> k in old(disk).intents) && (k in disk.intents ==> disk.intents[k] == old(disk).intents[k])
                 && (k in diverged <==> k in old(diverged))
      requires id in disk.stored ==> if id in diverged then Apart(disk, id) else Consistent(disk, id)
      ensures Valid()
    {
      forall k | k in disk.stored
        ensures if k in diverged then Apart(disk, k) else Consistent(disk, k)
      {
        assert k != id ==> if k in old(diverged) then Apart(old(disk), k) else Consistent(old(disk), k);
      }
    }

    method Begin(id: RepositoryId, previous: Branch, proposed: Branch)
      requires Valid() && id in disk.stored && id !in disk.intents && id !in diverged && disk.stored[id] == previous
      modifies this
      ensures Valid() && diverged == old(diverged)
      ensures disk == old(disk).(intents := old(disk).intents[id := Intent(previous, proposed)])
    {
      assert Consistent(disk, id);
      disk := disk.(intents := disk.intents[id := Intent(previous, proposed)]);
      OthersKept(id);
    }

    method SetHead(id: RepositoryId, branch: Branch)
      requires Valid() && id in disk.intents && branch == disk.intents[id].proposed
      modifies this
      ensures Valid() && diverged == old(diverged) && disk == old(disk).(heads := old(disk).heads[id := branch])
    {
      assert id !in diverged && Consistent(disk, id) by {
        assert id in diverged ==> Apart(disk, id);
      }
      disk := disk.(heads := disk.heads[id := branch]);
      OthersKept(id);
    }

    // Stores the proposed name and deletes the intent, in one transaction.
    method Complete(id: RepositoryId)
      requires Valid() && id in disk.intents && disk.heads[id] == disk.intents[id].proposed
      modifies this
      ensures Valid() && diverged == old(diverged)
      ensures disk == Disk(old(disk).stored[id := old(disk).intents[id].proposed], old(disk).heads, old(disk).intents - {id})
    {
      assert id !in diverged && Consistent(disk, id) by {
        assert id in diverged ==> Apart(disk, id);
      }
      disk := Disk(disk.stored[id := disk.intents[id].proposed], disk.heads, disk.intents - {id});
      OthersKept(id);
    }

    // Deletes the intent, whatever HEAD says.
    method Abandon(id: RepositoryId)
      requires Valid() && id in disk.intents
      modifies this
      ensures Valid() && disk == old(disk).(intents := old(disk).intents - {id})
      ensures diverged == if old(disk).heads[id] == old(disk).intents[id].previous then old(diverged) else old(diverged) + {id}
    {
      assert id !in diverged && Consistent(disk, id) by {
        assert id in diverged ==> Apart(disk, id);
      }
      if disk.heads[id] != disk.intents[id].previous {
        diverged := diverged + {id};
      }
      disk := disk.(intents := disk.intents - {id});
      OthersKept(id);
    }

    /**
     A change, dying after any of its steps.  After an error of the HEAD update
     it abandons its intent without a look at HEAD: if HEAD was written all the
     same, the two names stay apart.
     */
    method UpdateDefaultBranch(id: RepositoryId, branch: Branch, exists': bool, update: Update, dies: nat)
      returns (r: Result<(), ChangeError>)
      requires Valid()
      modifies this
      ensures Valid()
      ensures r == Failure(NotFound) <==> id !in old(disk).stored
      ensures r == Failure(MissingBranch) <==> id in old(disk).stored && !exists'
      ensures r == Failure(DefaultBranchState) <==>
                id in old(disk).stored && exists' && old(disk).heads[id] != old(disk).stored[id]
      ensures r == Failure(IntentExists) <==>
                id in old(disk).stored && exists' && old(disk).heads[id] == old(disk).stored[id] && id in old(disk).intents
      ensures r == Failure(Died) <==> Permitted(old(disk), id, exists') && (dies == 0 || (dies == 1 && update == Works))
      ensures r == Failure(HeadUpdate) <==> Permitted(old(disk), id, exists') && dies > 0 && update != Works
      ensures r.Success? <==> Permitted(old(disk), id, exists') && dies >= 2 && update == Works
      ensures forall k :: k in old(disk).stored && k != id ==>
                k in disk.stored && disk.stored[k] == old(disk).stored[k] && disk.heads[k] == old(disk).heads[k]
      ensures r.Success? ==> id in disk.stored && disk.stored[id] == branch == disk.heads[id] && id !in disk.intents
      ensures r.Failure? && r.error != Died && r.error != HeadUpdate ==> disk == old(disk)
      // A death leaves the intent, with HEAD as before or as proposed.
      ensures r == Failure(Died) ==>
                && disk.stored == old(disk).stored && disk.intents == old(disk).intents[id := Intent(old(disk).stored[id], branch)]
                && disk.heads == if dies == 0 then old(disk).heads else old(disk).heads[id := branch]
      ensures r == Failure(HeadUpdate) ==>
                update != Works && disk == if update == FailsBefore then old(disk) else old(disk).(heads := old(disk).heads[id := branch])
      ensures diverged == old(diverged) +
              if r == Failure(HeadUpdate) && update == FailsAfter && branch != old(disk).stored[id] then {id} else {}
      // Where the names are apart no change gets through any more.
      ensures id in old(diverged) ==> r.Failure? && disk == old(disk)
    {
      if id !in disk.stored {
        return Failure(NotFound);
      }
      assert if id in diverged then Apart(disk, id) else Consistent(disk, id);
      var previous := disk.stored[id];
      if !exists' {
        return Failure(MissingBranch);
      }
      if disk.heads[id] != previous {
        return Failure(DefaultBranchState);
      }
      if id in disk.intents {
        return Failure(IntentExists);
      }
      assert id in disk.heads && id !in diverged;
      hide Inv;
      r := Change(id, previous, branch, update, dies);
    }

    // A change whose checks have passed.
    method Change(id: RepositoryId, previous: Branch, branch: Branch, update: Update, dies: nat) returns (r: Result<(), ChangeError>)
      requires Valid() && id in disk.stored && id in disk.heads && id !in disk.intents && id !in diverged
      requires disk.stored[id] == previous == disk.heads[id]
      modifies this
      ensures Valid()
      ensures disk.stored == (if r.Success? then old(disk).stored[id := branch] else old(disk).stored)
      ensures disk.heads == old(disk).heads || disk.heads == old(disk).heads[id := branch]
      ensures r.Success? ==> disk.heads == old(disk).heads[id := branch] && disk.intents == old(disk).intents
      ensures r == Failure(Died) <==> dies == 0 || (dies == 1 && update == Works)
      ensures r == Failure(HeadUpdate) <==> dies > 0 && update != Works
      ensures r.Success? <==> dies >= 2 && update == Works
      ensures r == Failure(Died) ==>
                && disk.stored == old(disk).stored && disk.intents == old(disk).intents[id := Intent(previous, branch)]
                && disk.heads == if dies == 0 then old(disk).heads else old(disk).heads[id := branch]
      ensures r == Failure(HeadUpdate) ==>
                update != Works && disk == if update == FailsBefore then old(disk) else old(disk).(heads := old(disk).heads[id := branch])
      ensures diverged == old(diverged) + if r == Failure(HeadUpdate) && update == FailsAfter && branch != previous then {id} else {}
    {
      hide Inv;
      Begin(id, previous, branch);
      if dies == 0 {
        return Failure(Died);
      }
      if update != FailsBefore {
        SetHead(id, branch);
      }
      if update != Works {
        Abandon(id);
        assert disk.intents == old(disk).intents;
        return Failure(HeadUpdate);
      }
      if dies == 1 {
        return Failure(Died);
      }
      Complete(id);
      assert disk.intents == old(disk).intents;
      r := Success(());
    }

    /** Recovery of every open intent, dying after any of its steps; it writes no HEAD. */
    method Recover(dies: nat) returns (r: Result<(), ChangeError>)
      requires Valid()
      modifies this
      ensures Valid() && disk.heads == old(disk).heads && diverged == old(diverged)
      ensures r.Success? ==> Settled(disk, diverged)
      ensures r.Failure? <==> dies < |old(disk).intents|
      ensures r.Failure? ==> r.error == Died
    {
      var left := dies;
      while disk.intents != map[]
        invariant Valid() && disk.heads == old(disk).heads && diverged == old(diverged)
        invariant 0 <= left && |disk.intents| + dies - left == |old(disk).intents|
        decreases |disk.intents|
      {
        assert disk.intents.Keys != {};
        var id :| id in disk.intents;
        assert if id in diverged then Apart(disk, id) else Consistent(disk, id);
        if left == 0 {
          return Failure(Died);
        }
        left := left - 1;
        ghost var before := disk.intents;
        assert |before.Keys| > 0;
        if disk.heads[id] == disk.intents[id].previous {
          Abandon(id);
        } else if disk.heads[id] == disk.intents[id].proposed {
          Complete(id);
        } else {
          assert false;
        }
        assert |before.Keys| == |(before - {id}).Keys| + 1 by {
          assert before.Keys == (before - {id}).Keys + {id};
        }
      }
      NoIntentsMeansSettled(disk, diverged);
      r := Success(());
    }
  }

  datatype Event =
    | Change(id: RepositoryId, branch: Branch, present: bool, update: Update, dies: nat)
    | Restart(dies: nat)

  // Some change of the repository met an error after HEAD was written.
  predicate LateError(events: seq<Event>, id: RepositoryId) {
    exists k :: 0 <= k < |events| && events[k].Change? && events[k].id == id && events[k].update == FailsAfter
  }

  /**
   Any history of changes, crashes and interrupted recoveries, followed by one
   recovery that gets through: no intent is open, and the stored default branch
   equals HEAD exactly where no error came after HEAD was written.
   */
  method AnyHistory(service: RepositoryService, events: seq<Event>, dies: nat) returns (recovered: bool)
    requires service.Valid()
    modifies service
    ensures service.Valid() && (recovered ==> Settled(service.disk, service.diverged))
    ensures old(service.diverged) <= service.diverged
    ensures forall id :: id in service.diverged ==> id in old(service.diverged) || LateError(events, id)
  {
    for k := 0 to |events|
      invariant service.Valid() && old(service.diverged) <= service.diverged
      invariant forall id :: id in service.diverged ==> id in old(service.diverged) || LateError(events, id)
    {
      match events[k]
      case Change(id, branch, present, update, when) =>
        var _ := service.UpdateDefaultBranch(id, branch, present, update, when);
      case Restart(when) =>
        var _ := service.Recover(when);
    }
    var r := service.Recover(dies);
    recovered := r.Success?;
  }

}
