/**
 The write-ahead intent that keeps references and packs in step with the
 database while a push or a merge runs, as a system of durable steps.  The
 process may die after any step, also inside recovery.  A push that fails leads
 to the same recovery, and the server goes on whether that succeeds or not; a
 merge that fails leaves its row for a later recovery.
 */
module GitIntents {
  import opened Outcomes
  import opened Objects
  import opened Refs
  import opened Policy
  import opened PushValidation
  import PR = PullRequestRefs

  // The place of an intent in the order recovery takes them.
  type IntentId = nat
  type PackName = nat

  datatype IntentState = Pending | Promoted | Completed | Abandoned

  // The pull request a merge belongs to, and the revision it merges.
  datatype MergeOf = MergeOf(number: nat, revision: nat)

  // `pack` is the file recovery may delete.  `applied` is history: how many of
  // the edits, in order, the reference transaction has committed.
  datatype Intent = Intent(edits: seq<RefEdit>, state: IntentState, pack: Option<PackName>, applied: nat, merge: Option<MergeOf>)

  // What the one running operation does next.  Down means the process is gone
  // and recovers before it serves again; Halted means a push has failed inside
  // a running server and recovery comes next.
  datatype Job =
    | Down
    | Halted
    | Idle
    | Begun(id: IntentId)
    | Indexed(id: IntentId, name: PackName, objects: set<ObjectId>)
    | Filed(id: IntentId, pack: Option<PackName>)
    | Applying(id: IntentId)

  // A pack's objects can be read once both its file and its index are in place.
  // `published` is history: every object that was ever the target of a reference.
  datatype World = World(
    refs: RefStore,
    packs: map<PackName, set<ObjectId>>,
    indexes: set<PackName>,
    loose: set<ObjectId>,
    pulls: map<nat, PR.Pull>,
    intents: map<IntentId, Intent>,
    published: set<ObjectId>,
    job: Job)

  // The content behind every identifier, and the policy of the server.
  datatype Config = Config(universe: Repository, managed: bool, defaultBranch: RefName)

  function PolicyFor(c: Config, access: Access): Context {
    if c.managed then Managed(access, c.defaultBranch) else Open
  }

  predicate Incomplete(intent: Intent) {
    intent.state == Pending || intent.state == Promoted
  }

  function PresentWithout(w: World, hidden: Option<PackName>): set<ObjectId> {
    w.loose + set n, x | n in w.packs && n in w.indexes && hidden != Some(n) && x in w.packs[n] :: x
  }

  function Present(w: World): set<ObjectId> {
    PresentWithout(w, None)
  }

  // Everything reachable from the object is among those present.
  ghost predicate Held(c: Config, present: set<ObjectId>, id: ObjectId) {
    forall x :: Reaches(Links(c.universe), id, x) ==> x in present
  }

  // What the server reads when only some objects are present.
  function Visible(c: Config, present: set<ObjectId>): Repository {
    map id | id in c.universe && id in present :: c.universe[id]
  }

  // The checks of a push on one edit: sound objects and a permitted change.
  ghost predicate EditPasses(c: Config, present: set<ObjectId>, access: Access, edit: RefEdit) {
    exists change :: SoundEdit(Visible(c, present), edit, change) && Permitted(PolicyFor(c, access), edit.name, change)
  }

  ghost predicate Validated(c: Config, present: set<ObjectId>, access: Access, edits: seq<RefEdit>) {
    forall i :: 0 <= i < |edits| ==> EditPasses(c, present, access, edits[i])
  }

  // A merge moves one branch: to a descendant of it, or to a commit on top of
  // it and another published commit, whose tree has been written in full.
  ghost predicate MergeValidated(c: Config, w: World, edits: seq<RefEdit>, head: ObjectId) {
    && |edits| == 1 && IsBranch(edits[0].name) && edits[0].before.Some? && edits[0].after.Some?
    && head in w.published
    && var base, target := edits[0].before.value, edits[0].after.value;
       || (target == head && Ancestor(c.universe, base, head))
       || exists tree :: && target in c.universe && c.universe[target] == Commit(tree, [base, head])
                         && target in Present(w) && Held(c, Present(w), tree)
  }

  // How recovery deals with an intent it finds incomplete.
  datatype Decision = Drop | Discard | Keep | Mixed

  function Decide(refs: RefStore, intent: Intent): Decision {
    var atInitial := AtInitial(refs, intent.edits);
    var atProposed := AtProposed(refs, intent.edits);
    if intent.state == Pending && atInitial then Drop
    else if intent.state == Pending && !atProposed && |intent.edits| == 1 then Drop
    else if intent.state == Promoted && !atInitial && atProposed then Keep
    else if intent.state == Promoted && atInitial then Discard
    else if intent.state == Promoted && !atProposed && |intent.edits| == 1 then Discard
    else Mixed
  }

  // The store completes a merge only while its pull request is open at the revision it merges.
  predicate Accepted(pulls: map<nat, PR.Pull>, intent: Intent) {
    intent.merge.Some? ==>
      var MergeOf(number, revision) := intent.merge.value;
      number in pulls && pulls[number].state == PR.Open && |pulls[number].revisions| == revision
  }

  // Completing a merge marks its pull request in the same transaction.
  function Settled(pulls: map<nat, PR.Pull>, intent: Intent): map<nat, PR.Pull>
    requires Accepted(pulls, intent)
  {
    if intent.merge.None? then pulls
    else pulls[intent.merge.value.number := pulls[intent.merge.value.number].(state := PR.Merged)]
  }

  datatype Step =
    | Begin(id: IntentId, edits: seq<RefEdit>, merge: Option<MergeOf>)
    | FileNothing(access: Access)
    | FileExisting(access: Access, name: PackName)
    | PlaceIndex(access: Access, name: PackName, objects: set<ObjectId>)
    | UndoIndex(cleaned: bool)
    | PlacePack
    | WriteLoose(objects: set<ObjectId>)
    | FileMerge(head: ObjectId)
    | Mark
    | Apply
    | Complete
    | Fail
    | Leave
    | GiveUp
    | Crash
    | OpenPull(number: nat, first: PR.Revision)
    | RevisePull(number: nat, next: PR.Revision)
    | SetPull(number: nat, state: PR.PullState)
    | WritePullRef(pullRef: RefName, target: ObjectId)
    | RemovePack(id: IntentId)
    | RemoveIndex(id: IntentId)
    | RecoverDrop(id: IntentId)
    | RecoverDiscard(id: IntentId)
    | RecoverKeep(id: IntentId)
    | RecoveryDone
    | GoOn

  predicate NoneIncomplete(w: World) {
    forall i :: i in w.intents ==> !Incomplete(w.intents[i])
  }

  predicate Recovering(w: World) {
    w.job == Down || w.job == Halted
  }

  predicate Recovers(w: World, id: IntentId, decision: Decision) {
    && Recovering(w)
    && id in w.intents && Incomplete(w.intents[id])
    && Decide(w.refs, w.intents[id]) == decision
  }

  predicate Working(job: Job) {
    job.Begun? || job.Indexed? || job.Filed? || job.Applying?
  }

  function Edits(w: World): seq<RefEdit>
    requires Working(w.job)
  {
    if w.job.id in w.intents then w.intents[w.job.id].edits else []
  }

  predicate RunsPush(w: World) {
    Working(w.job) && w.job.id in w.intents && w.intents[w.job.id].merge.None?
  }

  predicate RunsMerge(w: World) {
    Working(w.job) && w.job.id in w.intents && w.intents[w.job.id].merge.Some?
  }

  ghost predicate Enabled(c: Config, w: World, s: Step) {
    match s
    case Begin(id, edits, merge) =>
      && w.job == Idle && id !in w.intents && WellFormed(edits) && AtInitial(w.refs, edits)
      && (merge.Some? ==> |edits| == 1 && Accepted(w.pulls, Intent(edits, Pending, None, 0, merge)))
    case FileNothing(access) =>
      w.job.Begun? && RunsPush(w) && Validated(c, Present(w), access, Edits(w))
    case FileExisting(access, name) =>
      w.job.Begun? && RunsPush(w) && name in w.packs && name in w.indexes
      && Validated(c, Present(w) + w.packs[name], access, Edits(w))
    case PlaceIndex(access, name, objects) =>
      w.job.Begun? && RunsPush(w) && name !in w.packs && name !in w.indexes
      && Validated(c, Present(w) + objects, access, Edits(w))
    case UndoIndex(_) => w.job.Indexed?
    case PlacePack => w.job.Indexed?
    case WriteLoose(_) => w.job.Begun? && RunsMerge(w)
    case FileMerge(head) => w.job.Begun? && RunsMerge(w) && MergeValidated(c, w, Edits(w), head)
    case Mark => w.job.Filed? && w.job.id in w.intents && w.intents[w.job.id].state == Pending
    case Apply =>
      && w.job.Applying? && w.job.id in w.intents
      && var i := w.intents[w.job.id];
         i.applied < |i.edits| && TargetOf(w.refs, i.edits[i.applied].name) == i.edits[i.applied].before
    case Complete =>
      && w.job.Applying? && w.job.id in w.intents
      && w.intents[w.job.id].state == Promoted && w.intents[w.job.id].applied == |w.intents[w.job.id].edits|
      && Accepted(w.pulls, w.intents[w.job.id])
    case Fail => RunsPush(w) && !w.job.Indexed?
    case Leave => RunsMerge(w) && !w.job.Indexed?
    case GiveUp =>
      && RunsMerge(w) && !w.job.Indexed? && Incomplete(w.intents[w.job.id])
      && (w.job.Applying? ==> |Edits(w)| == 1 && TargetOf(w.refs, Edits(w)[0].name) != Edits(w)[0].after)
    case Crash => true
    // Opening, revising and merging pull requests exclude each other; closing and reopening takes no lock.
    case OpenPull(number, _) => !RunsMerge(w) && number !in w.pulls
    case RevisePull(number, _) => !RunsMerge(w) && number in w.pulls && w.pulls[number].state == PR.Open
    case SetPull(number, state) =>
      number in w.pulls && w.pulls[number].state != PR.Merged && state != PR.Merged && w.pulls[number].state != state
    // Pull-request work runs beside pushes and writes its own references only.
    case WritePullRef(pullRef, target) => IsPull(pullRef) && target in w.published
    case RemovePack(id) => Recovers(w, id, Discard) && w.intents[id].pack.Some?
    case RemoveIndex(id) => Recovers(w, id, Discard) && w.intents[id].pack.Some? && w.intents[id].pack.value !in w.packs
    case RecoverDrop(id) => Recovers(w, id, Drop)
    case RecoverDiscard(id) =>
      && Recovers(w, id, Discard)
      && (w.intents[id].pack.Some? ==> w.intents[id].pack.value !in w.packs && w.intents[id].pack.value !in w.indexes)
    case RecoverKeep(id) => Recovers(w, id, Keep) && Accepted(w.pulls, w.intents[id])
    case RecoveryDone => Recovering(w) && NoneIncomplete(w)
    case GoOn => w.job == Halted
  }

  function SetIntent(w: World, id: IntentId, state: IntentState, pack: Option<PackName>): map<IntentId, Intent>
    requires id in w.intents
  {
    w.intents[id := w.intents[id].(state := state, pack := pack)]
  }

  ghost function Effect(c: Config, w: World, s: Step): World
    requires Enabled(c, w, s)
  {
    match s
    case Begin(id, edits, merge) => w.(intents := w.intents[id := Intent(edits, Pending, None, 0, merge)], job := Begun(id))
    case FileNothing(_) => w.(job := Filed(w.job.id, None))
    case FileExisting(_, _) => w.(job := Filed(w.job.id, None))
    case PlaceIndex(_, name, objects) => w.(indexes := w.indexes + {name}, job := Indexed(w.job.id, name, objects))
    case UndoIndex(cleaned) => w.(indexes := if cleaned then w.indexes - {w.job.name} else w.indexes, job := Halted)
    case PlacePack => w.(packs := w.packs[w.job.name := w.job.objects], job := Filed(w.job.id, Some(w.job.name)))
    case WriteLoose(objects) => w.(loose := w.loose + objects)
    case FileMerge(_) => w.(job := Filed(w.job.id, None))
    case Mark => w.(intents := SetIntent(w, w.job.id, Promoted, w.job.pack), job := Applying(w.job.id))
    case Apply =>
      var i := w.intents[w.job.id];
      var edit := i.edits[i.applied];
      w.(refs := ApplyEdit(w.refs, edit),
      intents := w.intents[w.job.id := i.(applied := i.applied + 1)],
      published := w.published + (if edit.after.Some? then {edit.after.value} else {}))
    case Complete =>
      w.(intents := SetIntent(w, w.job.id, Completed, w.intents[w.job.id].pack), pulls := Settled(w.pulls, w.intents[w.job.id]), job := Idle)
    case Fail => w.(job := Halted)
    case Leave => w.(job := Idle)
    case GiveUp => w.(intents := SetIntent(w, w.job.id, Abandoned, w.intents[w.job.id].pack), job := Idle)
    case Crash => w.(job := Down)
    case OpenPull(number, first) => w.(pulls := w.pulls[number := PR.Pull(PR.Open, [first])])
    case RevisePull(number, next) =>
      w.(pulls := w.pulls[number := w.pulls[number].(revisions := w.pulls[number].revisions + [next])])
    case SetPull(number, state) => w.(pulls := w.pulls[number := w.pulls[number].(state := state)])
    case WritePullRef(pullRef, target) => w.(refs := w.refs[pullRef := target])
    case RemovePack(id) => w.(packs := w.packs - {w.intents[id].pack.value})
    case RemoveIndex(id) => w.(indexes := w.indexes - {w.intents[id].pack.value})
    case RecoverDrop(id) => w.(intents := SetIntent(w, id, Abandoned, w.intents[id].pack))
    case RecoverDiscard(id) => w.(intents := SetIntent(w, id, Abandoned, w.intents[id].pack))
    case RecoverKeep(id) =>
      w.(intents := SetIntent(w, id, Completed, w.intents[id].pack), pulls := Settled(w.pulls, w.intents[id]))
    case RecoveryDone => w.(job := Idle)
    case GoOn => w.(job := Idle)
  }

  ghost predicate Next(c: Config, w: World, w': World) {
    exists s :: Enabled(c, w, s) && w' == Effect(c, w, s)
  }

  ghost predicate Init(c: Config, w: World) {
    && w.intents == map[] && w.job == Idle
    && w.published == w.refs.Values
    && forall id :: id in w.published ==> Held(c, Present(w), id)
  }

  /**
   A run: pushes and merges one after the other, with crashes, failures,
   recoveries and pull-request work wherever they can happen.
   */
  ghost predicate IsRun(c: Config, run: seq<World>) {
    && |run| > 0 && Init(c, run[0])
    && forall i :: 0 <= i < |run| - 1 ==> Next(c, run[i], run[i + 1])
  }

  predicate Starts(w: World, w': World) {
    w.job == Idle && w'.job.Begun?
  }

  // No incomplete row records a pack that recovery may delete.
  predicate NoPackLeft(w: World) {
    forall i :: i in w.intents && Incomplete(w.intents[i]) ==> w.intents[i].pack == None
  }

  // Runs in which nothing begins while a row with a pack is left over.
  ghost predicate Guarded(c: Config, run: seq<World>) {
    IsRun(c, run) && forall i :: 0 <= i < |run| - 1 && Starts(run[i], run[i + 1]) ==> NoPackLeft(run[i])
  }

  // Runs in which nothing begins while any row is left over.
  ghost predicate Tidy(c: Config, run: seq<World>) {
    IsRun(c, run) && forall i :: 0 <= i < |run| - 1 && Starts(run[i], run[i + 1]) ==> NoneIncomplete(run[i])
  }

  lemma TidyIsGuarded(c: Config, run: seq<World>)
    requires Tidy(c, run)
    ensures Guarded(c, run)
  {
  }

  lemma ExtendRun(c: Config, run: seq<World>, s: Step)
    requires IsRun(c, run) && Enabled(c, run[|run| - 1], s)
    ensures IsRun(c, run + [Effect(c, run[|run| - 1], s)])
  {
    var w' := Effect(c, run[|run| - 1], s);
    var longer := run + [w'];
    forall i | 0 <= i < |longer| - 1
      ensures Next(c, longer[i], longer[i + 1])
    {
      if i < |run| - 1 {
        assert Next(c, run[i], run[i + 1]);
      } else {
        assert longer[i] == run[|run| - 1] && longer[i + 1] == w';
      }
    }
  }

}
