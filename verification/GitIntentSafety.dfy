/** What every run of pushes, merges, crashes, failures and recoveries keeps. */
module GitIntentSafety {
  import opened Outcomes
  import opened Objects
  import opened Refs
  import opened PushValidation
  import opened GitIntents

  // The first `applied` edits have taken effect, the others have not, and
  // nothing else has moved their references since.
  ghost predicate Progressed(refs: RefStore, i: Intent) {
    && WellFormed(i.edits) && i.applied <= |i.edits|
    && forall k :: 0 <= k < |i.edits| ==>
         TargetOf(refs, i.edits[k].name) == if k < i.applied then i.edits[k].after else i.edits[k].before
  }

  ghost predicate RowShaped(i: Intent) {
    && WellFormed(i.edits) && i.applied <= |i.edits|
    && (i.state == Pending ==> i.applied == 0 && i.pack == None)
    && (i.merge.Some? ==> |i.edits| == 1 && i.pack == None)
  }

  ghost predicate RowsShaped(w: World) {
    forall i :: i in w.intents ==> RowShaped(w.intents[i])
  }

  ghost predicate Owns(w: World, id: IntentId, state: IntentState) {
    id in w.intents && w.intents[id].state == state && Progressed(w.refs, w.intents[id])
  }

  // The running operation has its row to itself, and nobody else moves its references.
  ghost predicate JobSound(w: World) {
    match w.job
    case Down => true
    case Halted => true
    case Idle => true
    case Begun(id) => Owns(w, id, Pending)
    case Indexed(id, name, _) => Owns(w, id, Pending) && w.intents[id].merge.None? && name !in w.packs && name in w.indexes
    case Filed(id, pack) => Owns(w, id, Pending) && (pack.Some? ==> pack.value in w.packs && w.intents[id].merge.None?)
    case Applying(id) => Owns(w, id, Promoted) && (w.intents[id].pack.Some? ==> w.intents[id].pack.value in w.packs)
  }

  // What the policy guarantees about an edit once it is allowed.
  ghost predicate EditAllowed(c: Config, edit: RefEdit) {
    && (IsBranch(edit.name) && edit.before.Some? && edit.after.Some? ==>
          Ancestor(c.universe, edit.before.value, edit.after.value))
    && (c.managed && edit.name == c.defaultBranch ==> edit.after.Some?)
  }

  ghost predicate EditsAllowed(c: Config, edits: seq<RefEdit>) {
    forall k :: 0 <= k < |edits| ==> EditAllowed(c, edits[k])
  }

  // Nothing moves a reference before all edits are allowed.
  ghost predicate Allowed(c: Config, w: World) {
    w.job.Indexed? || w.job.Filed? || w.job.Applying? ==> EditsAllowed(c, Edits(w))
  }

  // What holds in every run, whatever rows the server leaves behind.
  ghost predicate Inv(c: Config, w: World) {
    && RowsShaped(w)
    && JobSound(w)
    && Allowed(c, w)
    && w.refs.Values <= w.published
  }

  ghost predicate EditsHeld(c: Config, present: set<ObjectId>, edits: seq<RefEdit>) {
    forall k :: 0 <= k < |edits| && edits[k].after.Some? ==> Held(c, present, edits[k].after.value)
  }

  // Nothing moves a reference before the objects of all edits are in place.
  ghost predicate ObjectsReady(c: Config, w: World) {
    && (w.job.Indexed? ==> EditsHeld(c, Present(w) + w.job.objects, Edits(w)))
    && (w.job.Filed? || w.job.Applying? ==> EditsHeld(c, Present(w), Edits(w)))
  }

  predicate RecordsPack(w: World, id: IntentId) {
    id in w.intents && Incomplete(w.intents[id]) && w.intents[id].pack.Some?
  }

  // A row that records a pack is the only one, nothing has moved its references
  // since, and once it has moved any its pack stays.
  ghost predicate PacksTracked(w: World) {
    && (forall i :: RecordsPack(w, i) ==>
          Progressed(w.refs, w.intents[i]) && (w.intents[i].applied > 0 ==> w.intents[i].pack.value in w.packs))
    && (forall i, j :: RecordsPack(w, i) && RecordsPack(w, j) ==> i == j)
    && (Working(w.job) ==> forall i :: RecordsPack(w, i) ==> i == w.job.id && w.intents[i].pack.value in w.packs)
  }

  // A pack that recovery may still delete, or whose placing is not recorded yet.
  predicate Removable(w: World, name: PackName) {
    || (w.job.Indexed? && w.job.name == name)
    || (w.job.Filed? && w.job.pack == Some(name))
    || exists i :: i in w.intents && w.intents[i].state == Promoted && w.intents[i].applied == 0 && w.intents[i].pack == Some(name)
  }

  ghost predicate AllHeld(c: Config, w: World, hidden: Option<PackName>) {
    forall id :: id in w.published ==> Held(c, PresentWithout(w, hidden), id)
  }

  ghost predicate ObjectsSafe(c: Config, w: World) {
    && AllHeld(c, w, None)
    && (forall name :: Removable(w, name) ==> AllHeld(c, w, Some(name)))
  }

  // What holds as long as nothing begins while a row with a pack is left over.
  ghost predicate SafeInv(c: Config, w: World) {
    Inv(c, w) && PacksTracked(w) && ObjectsReady(c, w) && ObjectsSafe(c, w)
  }

  ghost predicate RowSound(refs: RefStore, i: Intent) {
    match i.state
    case Pending => Progressed(refs, i)
    case Promoted => Progressed(refs, i)
    case Completed => i.applied == |i.edits|
    case Abandoned => i.applied == 0
  }

  ghost predicate RowsSound(w: World) {
    && (forall i :: i in w.intents ==> RowSound(w.refs, w.intents[i]))
    && (forall i, j :: i in w.intents && j in w.intents && Incomplete(w.intents[i]) && Incomplete(w.intents[j]) ==> i == j)
  }

  // What holds as long as nothing begins while any row is left over.
  ghost predicate TidyInv(c: Config, w: World) {
    SafeInv(c, w) && RowsSound(w)
  }

  // More objects never hurt.
  lemma HeldMonotone(c: Config, small: set<ObjectId>, large: set<ObjectId>, id: ObjectId)
    requires Held(c, small, id) && small <= large
    ensures Held(c, large, id)
  {
  }

  // Objects validated in what is visible are held in the universe.
  lemma VisibleIsPart(c: Config, present: set<ObjectId>, edit: RefEdit, change: Policy.RefChange)
    requires SoundEdit(Visible(c, present), edit, change)
    ensures edit.after.Some? ==> Held(c, present, edit.after.value)
    ensures edit.before.Some? && edit.after.Some? && Ancestor(Visible(c, present), edit.before.value, edit.after.value) ==>
              Ancestor(c.universe, edit.before.value, edit.after.value)
  {
    var visible := Visible(c, present);
    if edit.after.Some? {
      var id := edit.after.value;
      forall x | Reaches(Links(c.universe), id, x)
        ensures x in present
      {
        assert forall y :: Reaches(Links(visible), id, y) ==> Find(visible, y).Success?;
        CompleteShowsAll(visible, c.universe, id, x);
      }
      if edit.before.Some? && Ancestor(visible, edit.before.value, id) {
        ReachesMonotone(Parents(visible), Parents(c.universe), id, edit.before.value);
      }
    }
  }

  lemma ValidatedIsReady(c: Config, present: set<ObjectId>, access: Policy.Access, edits: seq<RefEdit>)
    requires Validated(c, present, access, edits)
    ensures EditsAllowed(c, edits) && EditsHeld(c, present, edits)
  {
    forall k | 0 <= k < |edits|
      ensures EditAllowed(c, edits[k]) && (edits[k].after.Some? ==> Held(c, present, edits[k].after.value))
    {
      assert EditPasses(c, present, access, edits[k]);
      var change :| SoundEdit(Visible(c, present), edits[k], change)
                    && Permitted(PolicyFor(c, access), edits[k].name, change);
      VisibleIsPart(c, present, edits[k], change);
      if IsBranch(edits[k].name) {
        PermittedBranchesDescend(Visible(c, present), PolicyFor(c, access), edits[k], change);
      } else if c.managed && edits[k].name == c.defaultBranch {
        assert change != Policy.Delete;
      }
    }
  }

  // A merge target descends from the base, and is held because its tree, its base and its head are.
  lemma MergeIsReady(c: Config, w: World, edits: seq<RefEdit>, head: ObjectId)
    requires MergeValidated(c, w, edits, head)
    ensures EditsAllowed(c, edits)
    ensures AllHeld(c, w, None) && edits[0].before.value in w.published ==> EditsHeld(c, Present(w), edits)
  {
    var base, target := edits[0].before.value, edits[0].after.value;
    if !(target == head && Ancestor(c.universe, base, head)) {
      var tree :| && target in c.universe && c.universe[target] == Commit(tree, [base, head])
                  && target in Present(w) && Held(c, Present(w), tree);
      if AllHeld(c, w, None) && base in w.published {
        forall x | Reaches(Links(c.universe), target, x)
          ensures x in Present(w)
        {
          ReachesFirst(Links(c.universe), target, x);
          assert LinksOf(c.universe[target]) == [tree, base, head];
        }
      }
      ReachesSelf(Parents(c.universe), target);
      ReachesStep(Parents(c.universe), target, target, base);
    }
  }

  // Writing one reference leaves rows as they were whose edits do not name it.
  lemma PullRefProgresses(w: World, pullRef: RefName, target: ObjectId, i: Intent)
    requires IsPull(pullRef) && Progressed(w.refs, i)
    ensures Progressed(w.refs[pullRef := target], i)
  {
    forall k | 0 <= k < |i.edits|
      ensures TargetOf(w.refs[pullRef := target], i.edits[k].name) == TargetOf(w.refs, i.edits[k].name)
    {
      PullsAreApart(pullRef, i.edits[k].name);
    }
  }

  lemma ApplyProgresses(refs: RefStore, i: Intent)
    requires Progressed(refs, i) && i.applied < |i.edits|
    ensures Progressed(ApplyEdit(refs, i.edits[i.applied]), i.(applied := i.applied + 1))
  {
  }

  /**
   While nothing else has moved a row's references, recovery meets a mixed state
   exactly for a half-applied transaction, and keeps exactly the ones that took
   effect.
   */
  lemma DecisionFits(refs: RefStore, i: Intent)
    requires Incomplete(i) && RowShaped(i) && Progressed(refs, i)
    ensures Decide(refs, i) == Mixed <==> 0 < i.applied < |i.edits|
    ensures Decide(refs, i) == Keep <==> i.applied == |i.edits|
    ensures Decide(refs, i) == Discard <==> i.applied == 0 && i.state == Promoted
    ensures Decide(refs, i) == Drop <==> i.state == Pending
  {
    assert TargetOf(refs, i.edits[0].name) == if 0 < i.applied then i.edits[0].after else i.edits[0].before;
    var last := |i.edits| - 1;
    assert TargetOf(refs, i.edits[last].name) == if last < i.applied then i.edits[last].after else i.edits[last].before;
    if i.applied == 0 {
      assert AtInitial(refs, i.edits);
    } else if i.applied == |i.edits| {
      assert AtProposed(refs, i.edits);
    }
  }

  // The steps that settle a row, and those that change an operation's own row.
  predicate Settles(s: Step) {
    s.Complete? || s.GiveUp? || s.RecoverDrop? || s.RecoverDiscard? || s.RecoverKeep?
  }

  predicate Advances(s: Step) {
    s.Begin? || s.Mark? || s.Apply?
  }

  // What each kind of step leaves alone.
  lemma StepFrame(c: Config, w: World, s: Step)
    requires Enabled(c, w, s)
    ensures var w' := Effect(c, w, s);
            && (!s.Apply? && !s.WritePullRef? ==> w'.refs == w.refs)
            && (!s.Apply? ==> w'.published == w.published)
            && w.loose <= w'.loose && (!s.WriteLoose? ==> w'.loose == w.loose)
            && (!s.PlacePack? && !s.RemovePack? ==> w'.packs == w.packs)
            && (!s.PlaceIndex? && !s.UndoIndex? && !s.RemoveIndex? ==> w'.indexes == w.indexes)
            && (!Advances(s) && !Settles(s) ==> w'.intents == w.intents)
            && (!s.Complete? && !s.RecoverKeep? && !s.OpenPull? && !s.RevisePull? && !s.SetPull? ==> w'.pulls == w.pulls)
            && (Working(w'.job) && !s.Begin? ==> Working(w.job) && w'.job.id == w.job.id)
  {
    hide Validated, MergeValidated, WellFormed, AtInitial, Decide, Accepted, Present;
  }

  lemma SettlingFrame(c: Config, w: World, s: Step)
    requires Enabled(c, w, s) && Settles(s)
    ensures var w' := Effect(c, w, s);
            && w'.intents.Keys == w.intents.Keys && !Working(w'.job)
            && forall i :: i in w.intents ==>
                 w'.intents[i] == w.intents[i] || w'.intents[i] in {w.intents[i].(state := Completed), w.intents[i].(state := Abandoned)}
  {
    hide WellFormed, AtInitial, Decide, Accepted;
  }

  lemma ShapesKept(c: Config, w: World, s: Step)
    requires Enabled(c, w, s) && RowsShaped(w) && JobSound(w)
    ensures RowsShaped(Effect(c, w, s))
  {
    if Advances(s) {
      hide AtInitial, Progressed, Accepted, Decide;
      var w' := Effect(c, w, s);
      assert forall i :: i in w'.intents && i in w.intents ==> RowShaped(w.intents[i]);
    } else {
      hide Enabled, Effect, JobSound, RowShaped;
      StepFrame(c, w, s);
      if Settles(s) {
        SettlingShapes(c, w, s);
      }
    }
  }

  lemma SettlingShapes(c: Config, w: World, s: Step)
    requires Enabled(c, w, s) && RowsShaped(w) && Settles(s)
    ensures RowsShaped(Effect(c, w, s))
  {
    hide Enabled, Effect, WellFormed;
    SettlingFrame(c, w, s);
    assert forall i :: i in w.intents ==> RowShaped(w.intents[i]);
  }

  // The operation's own steps.
  lemma WorkKept(c: Config, w: World, s: Step)
    requires Enabled(c, w, s) && RowsShaped(w) && JobSound(w)
    requires Advances(s) || s.FileNothing? || s.FileExisting? || s.FileMerge? || s.PlaceIndex? || s.PlacePack?
    ensures JobSound(Effect(c, w, s))
  {
    hide Validated, MergeValidated, Decide, RowShaped, Accepted, Present;
    var w' := Effect(c, w, s);
    if s.Begin? {
      assert Progressed(w.refs, w'.intents[s.id]);
    } else if s.Apply? {
      hide AtInitial, WellFormed, Progressed;
      ApplyProgresses(w.refs, w.intents[w.job.id]);
    } else if s.Mark? {
      hide AtInitial, WellFormed, Progressed;
      MarkProgresses(w.refs, w.intents[w.job.id], w.job.pack);
    } else {
      hide AtInitial, WellFormed, Progressed;
    }
  }

  lemma MarkProgresses(refs: RefStore, i: Intent, pack: Option<PackName>)
    requires Progressed(refs, i)
    ensures Progressed(refs, i.(state := Promoted, pack := pack))
  {
  }

  lemma JobKept(c: Config, w: World, s: Step)
    requires Enabled(c, w, s) && RowsShaped(w) && JobSound(w)
    ensures JobSound(Effect(c, w, s))
  {
    hide Progressed, RowsShaped;
    var w' := Effect(c, w, s);
    if Advances(s) || s.FileNothing? || s.FileExisting? || s.FileMerge? || s.PlaceIndex? || s.PlacePack? {
      hide Enabled, Effect, JobSound;
      WorkKept(c, w, s);
    } else if Settles(s) {
      hide Enabled, Effect;
      SettlingFrame(c, w, s);
    } else {
      JobStays(c, w, s);
      hide Enabled, Effect;
      StepFrame(c, w, s);
      if s.WritePullRef? && Working(w.job) {
        PullRefProgresses(w, s.pullRef, s.target, w.intents[w.job.id]);
      }
    }
  }

  // Any other step leaves the operation where it is, or ends it.
  lemma JobStays(c: Config, w: World, s: Step)
    requires Enabled(c, w, s) && !Advances(s) && !Settles(s)
    requires !s.FileNothing? && !s.FileExisting? && !s.FileMerge? && !s.PlaceIndex? && !s.PlacePack?
    ensures var w' := Effect(c, w, s);
            && (Working(w'.job) ==> w'.job == w.job && w'.packs == w.packs && w'.indexes == w.indexes)
            && (s.WritePullRef? ==> IsPull(s.pullRef) && w'.refs == w.refs[s.pullRef := s.target])
  {
    hide Decide, Accepted, Present;
  }

  lemma AllowedKept(c: Config, w: World, s: Step)
    requires Enabled(c, w, s) && JobSound(w) && Allowed(c, w)
    ensures Allowed(c, Effect(c, w, s))
  {
    hide EditsAllowed;
    if s.FileNothing? || s.FileExisting? || s.FileMerge? || s.PlaceIndex? || s.PlacePack? || Advances(s) {
      hide Validated, MergeValidated, WellFormed, AtInitial, Progressed, Accepted;
      match s
      case FileNothing(access) => ValidatedIsReady(c, Present(w), access, Edits(w));
      case FileExisting(access, name) => ValidatedIsReady(c, Present(w) + w.packs[name], access, Edits(w));
      case PlaceIndex(access, _, objects) => ValidatedIsReady(c, Present(w) + objects, access, Edits(w));
      case FileMerge(head) => MergeIsReady(c, w, Edits(w), head);
      case _ =>
    } else if Settles(s) {
      hide Enabled, Effect;
      SettlingFrame(c, w, s);
    } else {
      JobStays(c, w, s);
      hide Enabled, Effect;
      StepFrame(c, w, s);
    }
  }

  lemma StepKeepsInv(c: Config, w: World, s: Step)
    requires Enabled(c, w, s) && Inv(c, w)
    ensures Inv(c, Effect(c, w, s))
  {
    hide RowsShaped, JobSound, Allowed, Validated, MergeValidated;
    ShapesKept(c, w, s);
    JobKept(c, w, s);
    AllowedKept(c, w, s);
    assert Effect(c, w, s).refs.Values <= Effect(c, w, s).published;
  }

  predicate Readable(w: World, hidden: Option<PackName>, n: PackName) {
    n in w.packs && n in w.indexes && hidden != Some(n)
  }

  lemma PresentMonotone(w: World, hidden: Option<PackName>, w': World, hidden': Option<PackName>)
    requires w.loose <= w'.loose
    requires forall n :: Readable(w, hidden, n) ==> Readable(w', hidden', n) && w.packs[n] == w'.packs[n]
    ensures PresentWithout(w, hidden) <= PresentWithout(w', hidden')
  {
    forall x | x in PresentWithout(w, hidden)
      ensures x in PresentWithout(w', hidden')
    {
      if x !in w.loose {
        var n :| n in w.packs && n in w.indexes && hidden != Some(n) && x in w.packs[n];
        assert Readable(w, hidden, n);
      }
    }
  }

  lemma PlacedPackIsPresent(w: World, w': World, name: PackName, objects: set<ObjectId>)
    requires name !in w.packs && name in w.indexes
    requires w'.packs == w.packs[name := objects] && w'.indexes == w.indexes && w'.loose == w.loose
    ensures Present(w') == Present(w) + objects
  {
    PresentMonotone(w, None, w', None);
    forall x | x in objects
      ensures x in Present(w')
    {
      assert name in w'.packs && name in w'.indexes && x in w'.packs[name];
    }
    forall x | x in Present(w')
      ensures x in Present(w) + objects
    {
      if x !in w'.loose {
        var n :| n in w'.packs && n in w'.indexes && x in w'.packs[n];
        assert n != name ==> Readable(w, None, n);
      }
    }
  }

  // A step that keeps references, packs and the rows that record one.
  lemma PacksCarried(w: World, w': World)
    requires PacksTracked(w) && w'.refs == w.refs && forall n :: n in w.packs ==> n in w'.packs
    requires forall i :: RecordsPack(w', i) ==> RecordsPack(w, i) && w'.intents[i] == w.intents[i]
    requires Working(w'.job) ==> Working(w.job) && w'.job.id == w.job.id
    ensures PacksTracked(w')
  {
    hide Progressed;
  }

  // The steps of an operation that concern its own row.
  lemma OwnPackKept(c: Config, w: World, s: Step)
    requires Enabled(c, w, s) && Inv(c, w) && PacksTracked(w)
    requires (s.Begin? && NoPackLeft(w)) || s.Mark? || s.Apply?
    ensures PacksTracked(Effect(c, w, s))
  {
    hide WellFormed, AtInitial, Progressed, Allowed, Accepted, RowShaped;
    var w' := Effect(c, w, s);
    if s.Begin? {
      assert forall i :: RecordsPack(w', i) ==> RecordsPack(w, i);
    } else if s.Mark? {
      assert RowShaped(w.intents[w.job.id]);
      NothingPending(w.intents[w.job.id]);
      assert forall i :: RecordsPack(w, i) ==> i == w.job.id;
      assert forall i :: RecordsPack(w', i) ==> i == w.job.id;
      MarkProgresses(w.refs, w.intents[w.job.id], w.job.pack);
    } else {
      assert forall i :: RecordsPack(w', i) ==> i == w.job.id;
      assert RecordsPack(w', w.job.id) ==> RecordsPack(w, w.job.id);
      ApplyProgresses(w.refs, w.intents[w.job.id]);
    }
  }

  lemma NothingPending(i: Intent)
    requires RowShaped(i) && i.state == Pending
    ensures i.pack == None && i.applied == 0
  {
  }

  // Recovery's removal and the references of pull requests leave the recording rows alone.
  lemma PacksDisturbed(c: Config, w: World, s: Step)
    requires Enabled(c, w, s) && Inv(c, w) && PacksTracked(w)
    requires s.WritePullRef? || s.RemovePack?
    ensures PacksTracked(Effect(c, w, s))
  {
    hide WellFormed, AtInitial, Decide, Progressed, Allowed, RowShaped;
    var w' := Effect(c, w, s);
    assert forall i :: RecordsPack(w', i) <==> RecordsPack(w, i);
    if s.WritePullRef? {
      forall i | RecordsPack(w', i)
        ensures Progressed(w'.refs, w'.intents[i])
      {
        PullRefProgresses(w, s.pullRef, s.target, w.intents[i]);
      }
    } else {
      assert RecordsPack(w, s.id) && RowShaped(w.intents[s.id]);
      DecisionFits(w.refs, w.intents[s.id]);
      assert forall i :: RecordsPack(w', i) ==> i == s.id && w'.intents[i] == w.intents[i];
    }
  }

  lemma PacksKept(c: Config, w: World, s: Step)
    requires Enabled(c, w, s) && Inv(c, w) && PacksTracked(w) && (s.Begin? ==> NoPackLeft(w))
    ensures PacksTracked(Effect(c, w, s))
  {
    hide Inv, PacksTracked;
    var w' := Effect(c, w, s);
    if Advances(s) {
      OwnPackKept(c, w, s);
    } else if s.WritePullRef? || s.RemovePack? {
      PacksDisturbed(c, w, s);
    } else {
      PacksOnly(c, w, s);
      hide Enabled, Effect;
      StepFrame(c, w, s);
      if Settles(s) {
        SettlingFrame(c, w, s);
      }
      assert forall i :: RecordsPack(w', i) ==> RecordsPack(w, i) && w'.intents[i] == w.intents[i];
      PacksCarried(w, w');
    }
  }

  lemma PacksOnly(c: Config, w: World, s: Step)
    requires Enabled(c, w, s) && !s.RemovePack?
    ensures forall n :: n in w.packs ==> n in Effect(c, w, s).packs
  {
    if s.PlacePack? {
    } else {
      hide Enabled, Effect;
      StepFrame(c, w, s);
    }
  }

  // Filing records only edits whose objects were validated with what they come with.
  lemma FilingIsReady(c: Config, w: World, s: Step)
    requires Enabled(c, w, s) && Inv(c, w) && AllHeld(c, w, None)
    requires s.FileNothing? || s.FileExisting? || s.PlaceIndex? || s.FileMerge?
    ensures ObjectsReady(c, Effect(c, w, s))
  {
    hide EditsHeld, EditsAllowed, Validated, Decide, WellFormed;
    var w' := Effect(c, w, s);
    assert Present(w') == Present(w);
    match s
    case FileNothing(access) =>
      ValidatedIsReady(c, Present(w), access, Edits(w));
    case FileExisting(access, name) =>
      assert Present(w) + w.packs[name] == Present(w);
      ValidatedIsReady(c, Present(w), access, Edits(w));
    case PlaceIndex(access, name, objects) =>
      ValidatedIsReady(c, Present(w) + objects, access, Edits(w));
    case FileMerge(head) =>
      assert TargetOf(w.refs, Edits(w)[0].name) == Edits(w)[0].before;
      MergeIsReady(c, w, Edits(w), head);
  }

  lemma ReadyKept(c: Config, w: World, s: Step)
    requires Enabled(c, w, s) && Inv(c, w) && ObjectsReady(c, w) && AllHeld(c, w, None)
    ensures ObjectsReady(c, Effect(c, w, s))
  {
    hide EditsHeld, AllHeld, RowsShaped, Allowed;
    var w' := Effect(c, w, s);
    if s.FileNothing? || s.FileExisting? || s.PlaceIndex? || s.FileMerge? {
      hide Enabled, Effect;
      FilingIsReady(c, w, s);
    } else if s.PlacePack? {
      PlacedPackIsPresent(w, w', w.job.name, w.job.objects);
    } else if Advances(s) {
      hide WellFormed, AtInitial, Progressed, Accepted;
      assert Present(w') == Present(w);
    } else if Settles(s) {
      hide Enabled, Effect;
      SettlingFrame(c, w, s);
    } else {
      JobStays(c, w, s);
      hide Enabled, Effect;
      StepFrame(c, w, s);
      LooseStays(c, w, s);
    }
  }

  // Loose objects are written only before anything is filed.
  lemma LooseStays(c: Config, w: World, s: Step)
    requires Enabled(c, w, s)
    ensures !w.job.Begun? ==> Effect(c, w, s).loose == w.loose
  {
    if s.WriteLoose? {
    } else {
      hide Enabled, Effect;
      StepFrame(c, w, s);
    }
  }

  lemma AllHeldElsewhere(c: Config, w: World, hidden: Option<PackName>, w': World, hidden': Option<PackName>)
    requires AllHeld(c, w, hidden) && w'.published <= w.published
    requires PresentWithout(w, hidden) <= PresentWithout(w', hidden')
    ensures AllHeld(c, w', hidden')
  {
    forall id | id in w'.published
      ensures Held(c, PresentWithout(w', hidden'), id)
    {
      HeldMonotone(c, PresentWithout(w, hidden), PresentWithout(w', hidden'), id);
    }
  }

  // Where no object disappears and no new pack becomes removable.
  lemma ObjectsUntouched(c: Config, w: World, w': World)
    requires ObjectsSafe(c, w) && w'.published <= w.published
    requires w'.loose >= w.loose
    requires forall n :: n in w.packs && n in w.indexes ==> n in w'.packs && n in w'.indexes && w.packs[n] == w'.packs[n]
    requires forall name :: Removable(w', name) ==> Removable(w, name)
    ensures ObjectsSafe(c, w')
  {
    PresentMonotone(w, None, w', None);
    AllHeldElsewhere(c, w, None, w', None);
    forall name | Removable(w', name)
      ensures AllHeld(c, w', Some(name))
    {
      PresentMonotone(w, Some(name), w', Some(name));
      AllHeldElsewhere(c, w, Some(name), w', Some(name));
    }
  }

  // Placing the index of a pack that is not there yet makes it removable.
  lemma PlacingIsSafe(c: Config, w: World, s: Step)
    requires Enabled(c, w, s) && ObjectsSafe(c, w) && s.PlaceIndex?
    ensures ObjectsSafe(c, Effect(c, w, s))
  {
    hide Validated, Held;
    var w' := Effect(c, w, s);
    PresentMonotone(w, None, w', None);
    AllHeldElsewhere(c, w, None, w', None);
    forall name | Removable(w', name)
      ensures AllHeld(c, w', Some(name))
    {
      if name == s.name {
        PresentMonotone(w, None, w', Some(name));
        AllHeldElsewhere(c, w, None, w', Some(name));
      } else {
        PresentMonotone(w, Some(name), w', Some(name));
        AllHeldElsewhere(c, w, Some(name), w', Some(name));
      }
    }
  }

  // Taking an index away again whose pack is not there.
  lemma UndoingIsSafe(c: Config, w: World, s: Step)
    requires Enabled(c, w, s) && ObjectsSafe(c, w) && JobSound(w) && s.UndoIndex?
    ensures ObjectsSafe(c, Effect(c, w, s))
  {
    hide Held, AllHeld;
    var w' := Effect(c, w, s);
    assert forall name :: Removable(w', name) ==> Removable(w, name);
    ObjectsUntouched(c, w, w');
  }

  // A newly published object is held, and no pack is removable any more.
  lemma PublishingIsSafe(c: Config, w: World, s: Step)
    requires Enabled(c, w, s) && SafeInv(c, w) && s.Apply?
    ensures ObjectsSafe(c, Effect(c, w, s))
  {
    hide Held, Allowed, RowsShaped;
    var w' := Effect(c, w, s);
    assert forall i :: i in w'.intents && Incomplete(w'.intents[i]) && w'.intents[i].pack.Some? && i != w.job.id ==> RecordsPack(w, i);
    assert forall name :: !Removable(w', name);
    assert PresentWithout(w', None) == PresentWithout(w, None);
    assert AllHeld(c, w, None);
  }

  /** Recovery deletes only a pack no published object needs. */
  lemma RemovingIsSafe(c: Config, w: World, s: Step)
    requires Enabled(c, w, s) && SafeInv(c, w) && (s.RemovePack? || s.RemoveIndex?)
    ensures ObjectsSafe(c, Effect(c, w, s))
  {
    hide Held, Decide, Allowed, ObjectsReady, WellFormed;
    var w' := Effect(c, w, s);
    var name := w.intents[s.id].pack.value;
    assert RecordsPack(w, s.id);
    DecisionFits(w.refs, w.intents[s.id]);
    assert Removable(w, name);
    forall other: PackName | Removable(w', other)
      ensures other == name
    {
      var i :| i in w'.intents && w'.intents[i].state == Promoted && w'.intents[i].applied == 0 && w'.intents[i].pack == Some(other);
      assert RecordsPack(w, i);
    }
    PresentMonotone(w, Some(name), w', Some(name));
    PresentMonotone(w, Some(name), w', None);
    AllHeldElsewhere(c, w, Some(name), w', None);
    AllHeldElsewhere(c, w, Some(name), w', Some(name));
  }

  // Row changes that settle, and steps that touch neither packs nor rows.
  lemma SettlingIsSafe(c: Config, w: World, s: Step)
    requires Enabled(c, w, s) && ObjectsSafe(c, w)
    requires s.RecoverDrop? || s.RecoverDiscard? || s.RecoverKeep? || s.Complete? || s.GiveUp?
    ensures ObjectsSafe(c, Effect(c, w, s))
  {
    hide Decide, AllHeld, ObjectsSafe, AtInitial, Accepted;
    var w' := Effect(c, w, s);
    assert forall name :: Removable(w', name) ==> Removable(w, name);
    ObjectsUntouched(c, w, w');
  }

  lemma ObjectsKept(c: Config, w: World, s: Step)
    requires Enabled(c, w, s) && SafeInv(c, w)
    ensures ObjectsSafe(c, Effect(c, w, s))
  {
    hide ObjectsSafe, PacksTracked, RowsShaped, Allowed, ObjectsReady;
    var w' := Effect(c, w, s);
    if s.PlaceIndex? {
      PlacingIsSafe(c, w, s);
    } else if s.UndoIndex? {
      UndoingIsSafe(c, w, s);
    } else if s.Apply? {
      PublishingIsSafe(c, w, s);
    } else if s.RemovePack? || s.RemoveIndex? {
      RemovingIsSafe(c, w, s);
    } else if Settles(s) {
      SettlingIsSafe(c, w, s);
    } else {
      RemovableShrinks(c, w, s);
      PacksStay(c, w, s);
      hide Enabled, Effect;
      StepFrame(c, w, s);
      ObjectsUntouched(c, w, w');
    }
  }

  lemma RemovableShrinks(c: Config, w: World, s: Step)
    requires Enabled(c, w, s) && !s.PlaceIndex? && !s.Apply? && !Settles(s)
    ensures forall name :: Removable(Effect(c, w, s), name) ==> Removable(w, name)
  {
    hide Validated, MergeValidated, WellFormed, AtInitial, Decide, Accepted, Present;
  }

  lemma PacksStay(c: Config, w: World, s: Step)
    requires Enabled(c, w, s) && JobSound(w) && !s.RemovePack?
    ensures forall n :: n in w.packs ==> n in Effect(c, w, s).packs && Effect(c, w, s).packs[n] == w.packs[n]
  {
    hide Progressed;
    if s.PlacePack? {
    } else {
      hide Enabled, Effect;
      StepFrame(c, w, s);
    }
  }

  lemma StepKeepsSafe(c: Config, w: World, s: Step)
    requires Enabled(c, w, s) && SafeInv(c, w) && (s.Begin? ==> NoPackLeft(w))
    ensures SafeInv(c, Effect(c, w, s))
  {
    hide Inv, PacksTracked, ObjectsReady, AllHeld, Enabled, Effect, NoPackLeft;
    InvOfSafe(c, w);
    StepKeepsInv(c, w, s);
    PacksKept(c, w, s);
    ReadyKept(c, w, s);
    ObjectsKept(c, w, s);
  }

  lemma InvOfSafe(c: Config, w: World)
    requires SafeInv(c, w)
    ensures Inv(c, w) && PacksTracked(w)
  {
  }

  // A step that edits at most one row, keeps the references, and leaves that row sound.
  lemma OneRowKept(w: World, w': World, id: IntentId)
    requires RowsSound(w) && w'.refs == w.refs
    requires w'.intents.Keys == w.intents.Keys
    requires forall i :: i in w.intents && i != id ==> w'.intents[i] == w.intents[i]
    requires id in w.intents ==> RowSound(w'.refs, w'.intents[id]) && (Incomplete(w'.intents[id]) ==> Incomplete(w.intents[id]))
    ensures RowsSound(w')
  {
    hide Progressed;
  }

  lemma ApplyKeepsRows(c: Config, w: World)
    requires Enabled(c, w, Apply) && RowsSound(w) && JobSound(w)
    ensures RowsSound(Effect(c, w, Apply))
  {
    hide Progressed;
    var w' := Effect(c, w, Apply);
    var id := w.job.id;
    ApplyProgresses(w.refs, w.intents[id]);
    forall i | i in w'.intents
      ensures RowSound(w'.refs, w'.intents[i])
    {
      if i != id {
        assert !Incomplete(w.intents[i]);
      }
    }
  }

  lemma PullRefKeepsRows(c: Config, w: World, s: Step)
    requires s.WritePullRef? && Enabled(c, w, s) && RowsSound(w)
    ensures RowsSound(Effect(c, w, s))
  {
    hide Progressed;
    var w' := Effect(c, w, s);
    forall i | i in w'.intents
      ensures RowSound(w'.refs, w'.intents[i])
    {
      if Incomplete(w.intents[i]) {
        PullRefProgresses(w, s.pullRef, s.target, w.intents[i]);
      }
    }
  }

  lemma BeginKeepsRows(c: Config, w: World, s: Step)
    requires s.Begin? && Enabled(c, w, s) && RowsSound(w) && NoneIncomplete(w)
    ensures RowsSound(Effect(c, w, s))
  {
    hide Accepted;
    var w' := Effect(c, w, s);
    assert Progressed(w.refs, w'.intents[s.id]);
    forall i | i in w'.intents && i != s.id
      ensures RowSound(w'.refs, w'.intents[i]) && !Incomplete(w'.intents[i])
    {
    }
  }

  // A row that is settled is completed with all its edits applied, or abandoned with none.
  lemma RecoveryKeepsRows(c: Config, w: World, s: Step)
    requires (s.RecoverDrop? || s.RecoverDiscard? || s.RecoverKeep?) && Enabled(c, w, s) && RowsSound(w) && RowsShaped(w)
    ensures RowsSound(Effect(c, w, s))
  {
    hide WellFormed, Accepted, Progressed, Decide;
    var row := w.intents[s.id];
    assert RowSound(w.refs, row) && RowShaped(row);
    DecisionFits(w.refs, row);
    OneRowKept(w, Effect(c, w, s), s.id);
  }

  lemma SettlingKeepsRows(c: Config, w: World, s: Step)
    requires Settles(s) && Enabled(c, w, s) && RowsSound(w) && RowsShaped(w) && JobSound(w)
    ensures RowsSound(Effect(c, w, s))
  {
    hide WellFormed, Accepted, AtInitial, Progressed, Decide;
    if s.Complete? || s.GiveUp? {
      var row := w.intents[w.job.id];
      assert RowSound(w.refs, row) && RowShaped(row);
      if s.GiveUp? {
        GivenUpIsUnapplied(w, row);
      }
      OneRowKept(w, Effect(c, w, s), w.job.id);
    } else {
      hide Enabled, Effect, JobSound, RowsShaped;
      RecoveryKeepsRows(c, w, s);
    }
  }

  lemma MarkingKeepsRows(c: Config, w: World)
    requires Enabled(c, w, Mark) && RowsSound(w) && JobSound(w)
    ensures RowsSound(Effect(c, w, Mark))
  {
    hide Progressed;
    MarkProgresses(w.refs, w.intents[w.job.id], w.job.pack);
    OneRowKept(w, Effect(c, w, Mark), w.job.id);
  }

  lemma GivenUpIsUnapplied(w: World, row: Intent)
    requires Progressed(w.refs, row) && |row.edits| == 1
    ensures TargetOf(w.refs, row.edits[0].name) != row.edits[0].after ==> row.applied == 0
  {
  }

  lemma RowsKept(c: Config, w: World, s: Step)
    requires Enabled(c, w, s) && RowsSound(w) && RowsShaped(w) && JobSound(w) && (s.Begin? ==> NoneIncomplete(w))
    ensures RowsSound(Effect(c, w, s))
  {
    hide Enabled, Effect, RowsShaped, JobSound, RowSound;
    if s.Begin? {
      BeginKeepsRows(c, w, s);
    } else if s.Apply? {
      ApplyKeepsRows(c, w);
    } else if s.WritePullRef? {
      PullRefKeepsRows(c, w, s);
    } else if s.Mark? {
      MarkingKeepsRows(c, w);
    } else if Settles(s) {
      SettlingKeepsRows(c, w, s);
    } else {
      StepFrame(c, w, s);
    }
  }

  lemma StepKeepsTidy(c: Config, w: World, s: Step)
    requires Enabled(c, w, s) && TidyInv(c, w) && (s.Begin? ==> NoneIncomplete(w))
    ensures TidyInv(c, Effect(c, w, s))
  {
    hide RowsSound, RowsShaped, JobSound, Allowed, PacksTracked, ObjectsReady, ObjectsSafe, Enabled, Effect;
    StepKeepsSafe(c, w, s);
    RowsKept(c, w, s);
  }

  lemma InitIsTidy(c: Config, w: World)
    requires Init(c, w)
    ensures TidyInv(c, w)
  {
  }

  // The step that led to a state of a run.
  lemma StepInRun(c: Config, run: seq<World>, k: nat) returns (s: Step)
    requires IsRun(c, run) && 0 < k < |run|
    ensures Enabled(c, run[k - 1], s) && run[k] == Effect(c, run[k - 1], s)
    ensures s.Begin? ==> Starts(run[k - 1], run[k])
  {
    assert Next(c, run[k - 1], run[k - 1 + 1]);
    s :| Enabled(c, run[k - 1], s) && run[k] == Effect(c, run[k - 1], s);
  }

  lemma {:induction false} RunKeepsInv(c: Config, run: seq<World>, k: nat)
    requires IsRun(c, run) && k < |run|
    ensures Inv(c, run[k])
  {
    hide Enabled, Effect, Inv, RowsShaped, JobSound, Allowed, SafeInv, RowsSound;
    if k == 0 {
      InitIsTidy(c, run[0]);
      InvOfTidy(c, run[0]);
    } else {
      RunKeepsInv(c, run, k - 1);
      var s := StepInRun(c, run, k);
      StepKeepsInv(c, run[k - 1], s);
    }
  }

  lemma InvOfTidy(c: Config, w: World)
    requires TidyInv(c, w)
    ensures Inv(c, w) && SafeInv(c, w)
  {
  }

  lemma {:induction false} RunKeepsSafe(c: Config, run: seq<World>, k: nat)
    requires Guarded(c, run) && k < |run|
    ensures SafeInv(c, run[k])
  {
    hide Enabled, Effect, SafeInv, NoPackLeft, Starts;
    if k == 0 {
      InitIsTidy(c, run[0]);
      InvOfTidy(c, run[0]);
    } else {
      RunKeepsSafe(c, run, k - 1);
      var s := StepInRun(c, run, k);
      assert Starts(run[k - 1], run[k - 1 + 1]) ==> NoPackLeft(run[k - 1]);
      StepKeepsSafe(c, run[k - 1], s);
    }
  }

  lemma {:induction false} RunKeepsTidy(c: Config, run: seq<World>, k: nat)
    requires Tidy(c, run) && k < |run|
    ensures TidyInv(c, run[k])
  {
    hide Enabled, Effect, TidyInv, NoneIncomplete, Starts;
    if k == 0 {
      InitIsTidy(c, run[0]);
    } else {
      RunKeepsTidy(c, run, k - 1);
      var s := StepInRun(c, run, k);
      assert Starts(run[k - 1], run[k - 1 + 1]) ==> NoneIncomplete(run[k - 1]);
      StepKeepsTidy(c, run[k - 1], s);
    }
  }

}
