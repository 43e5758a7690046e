/** References, and the edits a push or a merge proposes to them. */
module Refs {
  import opened Outcomes
  import opened Objects

  type RefName = string
  type RefStore = map<RefName, ObjectId>

  // An absent target is the null identifier of the wire format.
  datatype RefEdit = RefEdit(name: RefName, before: Option<ObjectId>, after: Option<ObjectId>)

  const MAX_COMMANDS := 256

  predicate IsBranch(name: RefName) {
    "refs/heads/" <= name
  }

  predicate IsTag(name: RefName) {
    "refs/tags/" <= name
  }

  predicate IsPull(name: RefName) {
    "refs/pull/" <= name
  }

  lemma PullsAreApart(pull: RefName, name: RefName)
    requires IsPull(pull) && (IsBranch(name) || IsTag(name))
    ensures pull != name
  {
    assert pull[5] == 'p';
    assert IsBranch(name) ==> name[5] == 'h';
    assert IsTag(name) ==> name[5] == 't';
  }

  // What a parsed command list always satisfies.
  predicate WellFormed(edits: seq<RefEdit>) {
    && 0 < |edits| <= MAX_COMMANDS
    && (forall i :: 0 <= i < |edits| ==> IsBranch(edits[i].name) || IsTag(edits[i].name))
    && (forall i :: 0 <= i < |edits| ==> edits[i].before != edits[i].after)
    && (forall i, j :: 0 <= i < j < |edits| ==> edits[i].name != edits[j].name)
  }

  function TargetOf(refs: RefStore, name: RefName): Option<ObjectId> {
    if name in refs then Some(refs[name]) else None
  }

  // Every edited reference is still as the edits found it.
  predicate AtInitial(refs: RefStore, edits: seq<RefEdit>) {
    forall i :: 0 <= i < |edits| ==> TargetOf(refs, edits[i].name) == edits[i].before
  }

  // Every edited reference is as the edits want it.
  predicate AtProposed(refs: RefStore, edits: seq<RefEdit>) {
    forall i :: 0 <= i < |edits| ==> TargetOf(refs, edits[i].name) == edits[i].after
  }

  // No reference but the edited ones has changed.
  ghost predicate OnlyMoves(before: RefStore, after: RefStore, edits: seq<RefEdit>) {
    forall name :: (forall i :: 0 <= i < |edits| ==> edits[i].name != name) ==> TargetOf(after, name) == TargetOf(before, name)
  }

  function ApplyEdit(refs: RefStore, edit: RefEdit): RefStore {
    match edit.after
    case Some(id) => refs[edit.name := id]
    case None => refs - {edit.name}
  }

}
