# A verified model of tit's Git core

`tit` keeps Git references and objects on disk and rows in SQLite, and no
transaction spans the two. This project models how the two are kept in step,
the object-graph walks this rests on, and the byte formats around it, and proves
what they promise for every input, every run and every crash.

* **Intent protocols.** A push or a merge writes an intent row, promotes its
  objects, marks the row, moves its references and completes the row; recovery
  drops, discards or keeps what a crash or a failure leaves (`GitIntents`,
  `GitIntentSafety`, `GitIntentTheorems`, `GitIntentWitnesses`, `PushService`).
  Pull-request references follow a second protocol that rolls forward
  (`PullRequestRefs`, `PullRequestService`) and the default branch a third
  (`DefaultBranch`). Each is a step system with a crash possible after every
  step, also inside recovery, and the service methods are classes that carry the
  run they produce.
* **Walks.** Reachability, ancestry, pack contents, histories, delta chains and
  trees are worklist loops with exact set specifications (`Walks`,
  `PackContents`, `PushValidation`, `Histories`, `DeltaDepth`, `TreePaths`,
  `TreeDiff`). Their errors are specified too: each failure names its cause.
  What an object needs is stated from the kinds of objects and from paths, and
  carried to what a push and a fetch mean for the files of a commit
  (`ObjectLinks`).
* **Formats.** pkt-line, sideband and the push and fetch streams (`PacketLine`,
  `Sideband`, `Fetch`, `FetchClient`, `ReceiveStream`, `PushCommands`), Git binary literals
  over zlib stored blocks (`Base85`, `ZlibStore`, `BinaryLiteral`; section 2.2
  of RFC 1950 and section 3.2.4 of RFC 1951), ustar archives (`Ustar`,
  `TarStream`, `ArchiveTree`), the login challenge and hexadecimal text
  (`LoginChallenge`, `Decimals`, `Codec`). The source only writes most of
  these; the readers here are written from the formats' definitions, so a round
  trip says what a client sees.
* **Small state machines.** The sliding-window limiter (`AttemptLimiter`) and
  the maintenance gate (`MaintenanceGate`).

`dafny verify dfyconfig.toml` checks everything.

## Three kinds of runs

`GitIntents.IsRun` holds of every sequence of pushes and merges, one after the
other, with crashes, failures, recoveries and pull-request work anywhere in
between. A failed push is followed by recovery, and the server goes on whether
that succeeds or not; a failed merge leaves its row. So a run may go on with
rows left over.

* In *every* run branches only advance and the default branch stays.
* In *guarded* runs, where nothing begins while a left-over row records a pack,
  everything reachable from every reference stays present.
* In *tidy* runs, where nothing begins while any row is left over, rows also tell
  the truth: completed means applied in full, abandoned means not at all.

Whether a run is guarded or tidy can be checked before each operation begins.

## What the code does not promise

Some properties one might expect are false. For each, lemmas show the failing
situation, most of them by a run that reaches it, and state the exact condition.

* **Recovery can fail though nothing is half applied.** Two things do it.
  The store completes a merge only while its pull request is open at the merged
  revision, and closing takes no lock (`GitIntentWitnesses.RefusedMergeIsReachable`).
  And a push that failed before its row was marked, left over by a failed
  recovery and made again, leaves an unmarked row at its target
  (`GitIntentWitnesses.RetriedPushIsMixed`). For every left-over row of every run
  the outcome is exact (`GitIntentTheorems.RecoveryDecides`): mixed when its
  references are not as before, and they are all at the target of an unmarked
  row, or neither as before nor at the target and there are several; refused for
  a marked merge at its target that the store does not accept. For a row whose
  references nothing else has moved this comes down to half applied or refused
  (`GitIntentTheorems.RecoverySettles`), and in tidy runs a whole recovery
  succeeds exactly when no row is either (`GitIntentTheorems.TidyRecoverySucceeds`).
* **What frees a row.** Reopening lets a refused merge through exactly when its
  pull request is closed and has no newer revision
  (`GitIntentTheorems.ReopeningDecides`); after a newer revision or another merge
  it is refused for good (`GitIntentTheorems.RefusedForever`). Moving the
  reference on frees any row of one reference
  (`GitIntentTheorems.OneReferenceDecides`).
* **A merge that took effect can be abandoned**, by that very move: recovery
  finds the branch neither as before nor as proposed
  (`GitIntentWitnesses.AppliedMergeIsAbandoned`).
* **Going on after a failed recovery can lose objects.** A failed push is left
  over with its pack because recovery stopped at an earlier row; another push
  publishes an object of that pack; the next recovery discards the first push and
  deletes the pack (`GitIntentWitnesses.LossIsReachable`). Over every run nothing
  published is ever lost if and only if recovery never deletes a pack that a
  published object needs (`GitIntentTheorems.NothingIsLostExactly`); no other step
  can lose anything (`GitIntentTheorems.StepLosesExactly`). In guarded runs it
  never does (`GitIntentTheorems.ReferencesStayComplete`).
* **An index can be stranded**, so that nothing cleans it up. Over every run
  exactly three things do it, unless another row still records the pack: a crash
  between the two renames of a promotion, a failed second rename whose undoing
  fails as well, or the completion of a row whose pack recovery had begun to
  delete (`GitIntentTheorems.StrayExactly`,
  `GitIntentWitnesses.StrandingIsReachable`); the third not in guarded runs
  (`GitIntentTheorems.GuardedKeepsFiles`). Every later push of that pack is
  refused (`GitIntentTheorems.StrayBlocksForever`).
* **Pushes and merges must not overlap.** They take different locks, and the
  recovery of a failing push takes up every incomplete row, also one whose
  operation is still running. That operation still moves a reference exactly
  when it had marked its row and not moved any yet
  (`GitIntentTheorems.OverlapAbandonsALiveOperation`). Runs are therefore serial.
* **A revision can be stuck.** Closing a pull request under a pending revision
  makes recovery fail; it succeeds exactly when the pull request is new or open
  (`PullRequestRefs.RecoveryRollsForward`). If it is merged instead, by the
  recovery of a push, once the reference is written, the revision stays pending
  for good and no pull request can be opened, revised or merged again (`PullRequestRefs.MergedPullBlocksForever`,
  `PullRequestRefs.MergeOvertakesRevision`).
* **The default branch can part from HEAD.** An error that comes after HEAD is
  written abandons the change without a look at HEAD; exactly then the two stay
  apart, and every later change of that repository is refused
  (`DefaultBranch.RepositoryService.UpdateDefaultBranch`).
* **The object limit of a fetch counts absent haves.** With links intact a walk
  is refused exactly when the closure exceeds the limit or some absent root finds
  the limit filled by the roots after it (`PackContents.WalkReachable`,
  `PackContents.AbsentFirstRootIsOneTooMany`).

## Model

| member | source | states |
|---|---|---|
| `GitIntentSafety.StepKeepsInv` | src/git/receive_pack.rs:152-210 | in every run each step keeps: the running operation has its row to itself with its references as far as it has applied them, and moves only allowed edits |
| `GitIntentSafety.StepKeepsSafe` | src/git/receive_pack.rs:343-374 | as long as nothing begins while a row records a pack, each step keeps every published object held, even without the pack that may still be deleted |
| `GitIntentSafety.StepKeepsTidy` | src/git/receive_pack.rs:592-629 | as long as nothing begins while a row is left over, each step keeps settled rows truthful and at most one row undecided |
| `GitIntentSafety.RunKeepsInv` | src/git/receive_pack.rs:152-210 | the first invariant holds in every state of every run |
| `GitIntentSafety.RunKeepsSafe` | src/git/receive_pack.rs:152-210 | the second holds in every state of every guarded run |
| `GitIntentSafety.RunKeepsTidy` | src/git/receive_pack.rs:152-210 | the third holds in every state of every tidy run |
| `GitIntentSafety.DecisionFits` | src/git/receive_pack.rs:592-629 | for a row whose references nothing else has moved, recovery decides to keep exactly when all edits took effect, to discard or drop exactly when none did, and is mixed exactly for a half-applied transaction |
| `GitIntentSafety.ValidatedIsReady` | src/git/receive_pack.rs:763-792 | edits that pass validation and policy have all their objects and only move branches forward |
| `GitIntentSafety.MergeIsReady` | src/pull_request.rs:533-605 | a merge target descends from the base, and is held when what is published is |
| `GitIntentSafety.RemovingIsSafe` | src/git/receive_pack.rs:667-693 | in guarded runs, deleting the pack an intent recorded loses no published object |
| `GitIntentTheorems.ReferencesStayComplete` | src/git/receive_pack.rs:343-374 | in every state of every guarded run, with crashes and failures, everything reachable from every reference is present |
| `GitIntentTheorems.StepLosesExactly` | src/git/receive_pack.rs:667-693 | in any state of any run with everything published in place, a step loses some of it if and only if it deletes a pack that a published object needs |
| `GitIntentTheorems.NothingIsLostExactly` | src/git/receive_pack.rs:584-629 | over every run, everything published stays present in all states up to the k-th if and only if no step before it is such a deletion |
| `GitIntentTheorems.CompleteWithoutLoss` | src/git/receive_pack.rs:584-629 | without such a deletion everything reachable from every reference is present, in every run |
| `GitIntentTheorems.RecoveryDecides` | src/git/receive_pack.rs:592-629 | for every left-over row of every run: mixed if and only if its references are not as before, and either all at the target of an unmarked row, or not at the target and several; refused if and only if a marked merge is at its target and the store does not accept it; else this row alone is settled, completed exactly when marked and at its target |
| `GitIntentTheorems.RecoverySettles` | src/git/receive_pack.rs:592-629 | its case for a row whose references nothing else has moved: mixed if and only if half applied, refused if and only if it is a fully applied merge the store does not accept; else completed exactly when its transaction took effect |
| `GitIntentTheorems.TidyRecoverySucceeds` | src/git/receive_pack.rs:584-590 | in tidy runs a whole recovery succeeds if and only if no row is half applied or refused |
| `GitIntentTheorems.RecoverAllSound` | src/git/receive_pack.rs:584-590 | a whole recovery settles rows in order and stops at the first it cannot settle, leaving it and all later ones as they were |
| `GitIntentTheorems.RowsTellTheTruth` | src/git/receive_pack.rs:584-629 | in tidy runs completed rows are applied in full, abandoned ones not at all, and at most one is undecided, with its references as it left them |
| `GitIntentTheorems.OneReferenceDecides` | src/git/receive_pack.rs:600-618 | a row of one reference is abandoned whenever the reference is anywhere but at its new target; there a marked row is kept, or refused when the store does not accept it, and an unmarked row is mixed |
| `GitIntentTheorems.ReopeningDecides` | src/store/mod.rs:5766-5780 | reopening lets a refused merge through if and only if its pull request is closed with no newer revision |
| `GitIntentTheorems.RefusedForever` | src/store/mod.rs:5766-5780 | once the pull request is merged or revised, the merge is refused in every continuation |
| `GitIntentTheorems.StepAdvancesBranches` | src/git/receive_pack.rs:377-410 | each step of any run moves a branch only to a descendant, and never removes a managed default branch |
| `GitIntentTheorems.BranchesOnlyAdvance` | src/git/receive_pack.rs:763-792 | over every run a branch's earlier target is an ancestor of its later ones as long as it is not deleted in between |
| `GitIntentTheorems.DefaultBranchStays` | src/policy.rs:35-57 | over every run a managed default branch, once present, stays present and only advances |
| `GitIntentTheorems.OverlapAbandonsALiveOperation` | src/git/receive_pack.rs:584-629 | recovery beside a live operation leaves it unable to mark or complete; it still moves a reference if and only if it was applying with nothing applied yet |
| `GitIntentTheorems.StrayExactly` | src/git/receive_pack.rs:343-374 | over every run a step leaves an index stray if and only if it was stray before, or no other row records its pack and the step is a crash between the renames, an undoing that fails, or the completion of a row whose pack file is gone |
| `GitIntentTheorems.GuardedKeepsFiles` | src/git/receive_pack.rs:612-614 | in guarded runs no row is completed without its pack in place |
| `GitIntentTheorems.StrayHasItsMoment` | src/git/receive_pack.rs:355-366 | every stray index of a guarded run goes back to a moment between the two renames |
| `GitIntentTheorems.StrayLasts` | src/git/receive_pack.rs:667-693 | no continuation of any run removes a stray index |
| `GitIntentTheorems.StrayBlocksForever` | src/git/receive_pack.rs:343-352 | no later push of that pack can file its objects |
| `GitIntentWitnesses.StrandingIsReachable` | src/git/receive_pack.rs:355-366 | a concrete run reaches the moment between the renames, and a crash there strands the index |
| `GitIntentWitnesses.RefusedMergeIsReachable` | src/pull_request.rs:579-600 | a concrete run leaves a merge with its branch moved and its pull request closed, and recovery stops at it |
| `GitIntentWitnesses.LeftPushIsReachable` | src/git/receive_pack.rs:204-208 | a push that fails after that is left promoted with its pack, because recovery stops at the merge |
| `GitIntentWitnesses.LossIsReachable` | src/git/receive_pack.rs:615-618 | continuing, a recovery deletes a pack whose object a branch points to |
| `GitIntentWitnesses.AppliedMergeIsAbandoned` | src/git/receive_pack.rs:615-618 | continuing otherwise, a recovery abandons a merge whose edit took effect |
| `GitIntentWitnesses.RetriedPushIsMixed` | src/git/receive_pack.rs:600-618 | a concrete run with no row half applied or refused, in which recovery still stops as mixed, at a push that failed before its row was marked and was made again |
| `PushService.Server.Finish` | src/git/receive_pack.rs:152-210 | malformed and stale commands change nothing, exactly; success means validated edits, all references written and the row completed; every failure has its cause in the pack, an edit, the policy or an injected error, or dies within the steps it has; it is followed by recovery of everything left over and ends abandoned with no reference changed, or completed when the error came after the last edit, or stops at a row; with nothing left over before, it stops exactly when the transaction failed in the middle; no other reference ever moves |
| `PushService.Server.FileObjects` | src/git/receive_pack.rs:262-374 | objects are filed only after validation; a refusal changes nothing and has its cause in a delta chain, an edit, the policy or a pack whose file and index disagree; a failed second rename leaves only the index, if undoing it failed; dying takes fewer than two steps |
| `PushService.Server.Settle` | src/git/receive_pack.rs:197-203 | marks, applies and completes; a transaction that fails after n edits leaves a promoted row with exactly those applied; it dies exactly when it has fewer steps than it needs |
| `PushService.Server.ApplyEdits` | src/git/receive_pack.rs:904-936 | exactly the first n edits are applied, or exactly those before the death |
| `PushService.Server.RecoverIncomplete` | src/git/receive_pack.rs:584-590 | equals the specified recovery of all rows in their order, its result or the row it stops at, unless it dies, which three steps for each left-over row rule out; no reference changes |
| `PushService.Server.RecoverRow` | src/git/receive_pack.rs:592-629 | equals the specified recovery of one row; a mixed state and a refusal of the store change nothing |
| `PushService.Server.DiscardRow` | src/git/receive_pack.rs:667-693 | removes pack, then index, then abandons the row; it dies exactly with fewer steps than that, and then no row has changed |
| `PushService.Server.Merge` | src/pull_request.rs:489-610 | refused merges change nothing and each refusal has its cause; everything else means an open pull request at its revision, unmoved branches and a method that fits; success moves the branch, completes the row and marks the pull request; a failed update abandons the row or, if it had been written, completes it; closing the pull request meanwhile ends with the branch moved and the row promoted; four steps are enough not to die, and with them it succeeds exactly when nothing fails or closes it |
| `PushService.Server.CompleteMerge` | src/pull_request.rs:605-606 | the row is completed exactly when the pull request was not closed meanwhile; otherwise it stays, refused |
| `PushService.Server.CheckMerge` | src/pull_request.rs:489-546 | not open and stale are refused exactly; it proceeds only when the requested method fits (for a fast-forward, base is an ancestor of head and not the reverse; for a merge commit, related, neither an ancestor of the other, no conflicts), is refused as not mergeable only when it does not, and as unreadable only for a bad or too long history |
| `PushService.FastForwardMoves` | src/pull_request.rs:533-546 | a fast-forward merge records different old and new targets |
| `PushService.PolicyRefuses` | src/git/receive_pack.rs:377-410 | a policy refusal means the edits are not valid under any classification |
| `PushService.AfterRecovery` | src/git/receive_pack.rs:204-208 | what recovery makes of a failed push: undone, completed, or, when nothing else was left over, mixed exactly if half applied |
| `PushValidation.ValidateReachable` | src/git/receive_pack.rs:862-875 | success means everything below the root is present and sound, within the limit; a failure names the missing or malformed object, or means more objects than the limit, or exactly that many and a missing one |
| `PushValidation.IsAncestor` | src/git/receive_pack.rs:877-901 | decides ancestry over parents; a failure names the bad ancestor, or means more ancestors than the limit, or exactly that many and an unreadable one |
| `PushValidation.ValidateProposedObjects` | src/git/receive_pack.rs:763-792 | success proves every edit sound and classifies it by ancestry; a failure has its cause in one edit |
| `PushValidation.ValidatePolicy` | src/git/receive_pack.rs:377-410 | accepts exactly when every classified edit is permitted; otherwise the first that is not decides the error |
| `Policy.RankDecides` | src/policy.rs:35-57 | a reference change is authorized exactly for a sufficient role on an active repository, never when forced and never to delete the default branch; an unknown role is an error exactly there |
| `Policy.OperationsByRank` | src/policy.rs:98-129 | reading needs a public repository or any role, writing a writer, maintaining a maintainer, all on an active repository; an unknown role is an error exactly there |
| `Policy.HigherRolesMayMore` | src/policy.rs:98-129 | whatever a role permits every higher role permits |
| `PushValidation.PermittedBranchesDescend` | src/policy.rs:98-117 | whatever the role, a permitted branch update descends from the old target and the default branch is not deleted |
| `PushCommands.ParseCommands` | src/git/receive_pack.rs:695-734 | accepts exactly the packet lists that stand for a list of edits, and returns that list: one per data packet before a single closing flush, distinct branch or tag names, within the limit |
| `PushCommands.CommandMeans` | src/git/receive_pack.rs:706-731 | a line is accepted exactly when it is two different identifiers and a valid branch or tag name with single blanks, with anything behind a zero byte on the first line only |
| `PushCommands.IdMeans` | src/git/receive_pack.rs:737-744 | an identifier is accepted exactly when it has the number of hexadecimal digits of the format, and prints back to them in lower case |
| `PushCommands.PushArrives` | src/ssh.rs:2972-2994 | a push a client prints, cut into pieces in any way, ends up as its command packets and its pack, and the packets stand for its edits |
| `PushCommands.CommandReadsBack` | src/git/receive_pack.rs:706-731 | parsing a printed command returns it, with or without capabilities on the first line |
| `PushCommands.PushesCannotNamePullRefs` | src/git/receive_pack.rs:722-727 | no parsed push names any pull request's reference |
| `PushCommands.SnapshotReadsBack` | src/git/receive_pack.rs:631-647 | recovery reads from an intent exactly the references and targets written into it |
| `PullRequestRefs.RunKeepsInv` | src/pull_request.rs:619-675 | in every interleaving of pushes, state changes, merges settled by any recovery, and serialized pull-request steps, the row and reference invariant holds |
| `PullRequestRefs.PullRefIsRecordedOrPending` | src/pull_request.rs:629-675 | each pull reference is the last completed revision's head or the pending intent's head, and the former when nothing is pending |
| `PullRequestRefs.RevisionsOnlyGrow` | src/store/mod.rs:2666-2769 | over every run the recorded revisions of a pull request only grow at their end |
| `PullRequestRefs.CompletedIsRecorded` | src/store/mod.rs:2666-2769 | over every run a completed row stands for a recorded revision |
| `PullRequestRefs.RecoveryRollsForward` | src/pull_request.rs:655-675 | recovery never meets a mixed state and writes the intended head; it completes the row exactly when the pull request is new or still open |
| `PullRequestRefs.ClosedPullBlocksOthers` | src/pull_request.rs:257-276 | a pull request closed under a pending revision keeps every opening, revision and merge from beginning until it is reopened, and then recovery succeeds |
| `PullRequestRefs.MergedPullBlocksForever` | src/store/mod.rs:2694-2710 | a revision whose reference is written, pending under a merged pull request, stays so in every continuation, recovery always fails, and nothing begins again |
| `PullRequestRefs.MergeOvertakesRevision` | src/git/receive_pack.rs:612-614 | such a state is reachable: the recovery of a push completes a left-over merge while a revision is under way |
| `PullRequestRefs.PullRefsDiffer` | src/pull_request.rs:752-754 | different numbers give different references |
| `PullRequestRefs.PullRefsAreApart` | src/pull_request.rs:752-754 | no pull reference is a branch or a tag |
| `PullRequestRefs.CompletionSettles` | src/store/mod.rs:2666-2769 | completing the row records the head and leaves nothing pending |
| `PullRequestService.Service.Revise` | src/pull_request.rs:141-200 | on success the pull reference and the recorded revision are the requested head; no failure is a mixed state |
| `PullRequestService.Service.ReviseRecovered` | src/pull_request.rs:141-200 | refused as not open, or as unchanged, exactly when it is, and then nothing changes; dies only where it is made to; success makes reference and record the requested head |
| `PullRequestService.Service.ApplyIntent` | src/pull_request.rs:629-653 | reference then row; an update that fails unwritten abandons the intent with references unchanged, one that fails written counts as written; success completes the row; a death or a refusal leaves it pending with its reference written |
| `PullRequestService.Service.RecoverInner` | src/pull_request.rs:619-627 | success completes the pending row as it was proposed, with reference and recorded head at its head; a failure leaves it pending with the reference written, by a death exactly when it is made to die, or by a pull request no longer open; with nothing in between it equals the specified recovery |
| `DefaultBranch.RepositoryService.UpdateDefaultBranch` | src/repository.rs:121-158 | each refusal exactly by its cause: no such repository, no such branch, names apart, an open intent, a failed HEAD update, a death; success exactly otherwise, with row and HEAD at the branch; a death leaves the intent with HEAD as before or as proposed, a failed update leaves HEAD moved exactly when it came after the write; the two names part exactly then, and a repository where they are apart refuses every change; other repositories are untouched |
| `DefaultBranch.RepositoryService.Recover` | src/repository.rs:160-178 | recovery never moves HEAD, dies exactly when it has fewer steps than intents, and otherwise leaves no intent and every row equal to HEAD but where they had parted |
| `DefaultBranch.AnyHistory` | src/repository.rs:121-178 | after any sequence of changes, errors, crashes and interrupted recoveries, one complete recovery leaves no intent and row and HEAD apart only where an error came after HEAD was written |
| `DefaultBranch.NoIntentsMeansSettled` | src/diagnostics.rs:169 | without open intents the stored default branch is HEAD in exactly the repositories that have not parted |
| `Walks.WalkComplete` | src/git/repository.rs:380-453 | a worklist that is empty has seen exactly the closure of its roots, and every absent node was tolerated |
| `ObjectLinks.LinksAreNeeds` | src/git/receive_pack.rs:829-860 | what a walk pushes for an object is exactly what it needs: a commit its tree and parents, a tag its target, a tree its entries but for submodules |
| `ObjectLinks.ReachedByNeeds` | src/git/repository.rs:380-453 | an object is reached exactly along needs, so a submodule's commit is never required through its entry |
| `ObjectLinks.SoundIffNeedsAreMet` | src/git/receive_pack.rs:862-875 | a root passes validation exactly when everything it needs, however far below, is there and sound |
| `ObjectLinks.PathsAreReached` | src/git/repository.rs:408-440 | a tree reaches what every path in it names, but for submodules, and every directory on the way |
| `ObjectLinks.HistoryIsReached` | src/git/repository.rs:408-440 | a commit reaches its ancestors, and of each its tree with every file and directory |
| `ObjectLinks.TagsAreFollowed` | src/git/receive_pack.rs:853-858 | a tag reaches what its target reaches |
| `ObjectLinks.ValidatedCommitsAreWhole` | src/git/receive_pack.rs:862-875 | a commit that a push validates has its whole history with all files among the objects |
| `ObjectLinks.FetchedCommitsAreWhole` | src/git/repository.rs:295-350 | a client closed under its haves that gets the selected pack holds the whole history and every file of each wanted commit |
| `PackContents.WalkReachable` | src/git/repository.rs:380-453 | ends with exactly the closure of the present roots, all sound, within the limit; each failure is justified; where links hold and nothing is damaged it is refused if and only if it counts too many |
| `PackContents.AbsentFirstRootIsOneTooMany` | src/git/repository.rs:380-453 | exactly the permitted number of objects and an absent first root is one too many |
| `PackContents.SelectPack` | src/git/repository.rs:295-350 | the pack is the closure of the wants minus the closure of the haves; unadvertised wants are refused exactly |
| `PackContents.FetchCompletesClient` | src/git/repository.rs:295-350 | a client closed under its haves becomes closed under its wants and gets nothing a have reaches |
| `Fetch.Negotiate` | src/git/upload_pack.rs:236-276 | accepts exactly the requests whose packets are all understood, that want something and stay within the limits; wants and haves are the first occurrences; every refusal has its cause |
| `Fetch.UniqueKeepsClosure` | src/git/upload_pack.rs:241-260 | dropping repeated wants and haves does not change what is reachable |
| `Fetch.CountingWriter.Write` | src/git/repository.rs:501-513 | a write passes exactly when the total stays within the limit |
| `Fetch.WritePack` | src/git/repository.rs:336-350 | a pack is sent exactly when the whole of it is within the limit, however it is cut |
| `Fetch.RespondFetch` | src/git/upload_pack.rs:236-301 | refused exactly when the request is not understood; without `done` the client reads the acknowledgement; with it, it decodes a headline, pack data and a flush, and joins the bytes of a pack of exactly reach(wants) minus reach(haves), or the pack is over its limit, or a want is not advertised, or an object is missing, damaged or one too many |
| `FetchClient.PacketsMean` | src/git/upload_pack.rs:248-283 | each packet means a want, a have, the end, a capability or a pause exactly when it is such a line, with its line end or without; a bad identifier is refused as one exactly when it follows one of the two words |
| `FetchClient.RequestIsRead` | src/git/upload_pack.rs:248-283 | of a request a client writes every packet is understood; wants and haves are exactly those written, and it is done exactly when the client said so |
| `FetchClient.DigitsReadBack` | src/git/upload_pack.rs:303-309 | identifiers in the digits of the object format read back, as the client requires |
| `FetchClient.ClientIsAnswered` | src/git/upload_pack.rs:236-301 | a client's request is refused exactly when it wants nothing or names too many objects; done, it gets a pack of what is below its wants and not below its haves, or a justified failure |
| `FetchClient.ClientHoldsItsFiles` | src/git/upload_pack.rs:236-301 | a client that holds everything below its haves holds, after a fetch, the whole history and every file of each commit it asked for |
| `Histories.History` | src/git/read.rs:834-860 | start first, each ancestor once, all of them unless cut off; a failure names an ancestor that is missing, damaged or no commit, or means more ancestors than the maximum, or exactly that many and an unreadable one |
| `Histories.Compare` | src/git/read.rs:455-540 | commits are exactly the head's ancestors that are not the base's, once each; already merged, fast-forward and unrelated are decided by ancestry; both histories together are within the maximum; failures are justified |
| `Histories.RelatedWhenAncestor` | src/git/read.rs:505-530 | an ancestor always shares history, so classification by ancestry does not contradict a missing merge base |
| `DeltaDepth.DepthUnique` | src/git/receive_pack.rs:509-566 | a chain has at most one length and cannot also break |
| `DeltaDepth.DeltasBuildOn` | src/git/receive_pack.rs:518-548 | an offset delta is one deeper than the entry so far before it, a reference delta than the entry of that object; an object outside the pack ends the chain |
| `DeltaDepth.CyclesNeverEnd` | src/git/receive_pack.rs:509-566 | a chain that returns to an entry has no length |
| `DeltaDepth.AnswerUnique` | src/git/receive_pack.rs:509-566 | the specified answer for an entry is unique, so the cache and the visiting order cannot change it |
| `DeltaDepth.FollowChain` | src/git/receive_pack.rs:518-548 | the search for a settled entry ends with a chain to it, or with the right error |
| `DeltaDepth.ChainDepth` | src/git/receive_pack.rs:509-566 | with any sound cache the memoised depth is the naive chain length, or the right error, and the cache stays sound |
| `DeltaDepth.ValidateDeltaDepth` | src/git/receive_pack.rs:483-507 | a pack passes exactly when every chain ends within 64 deltas |
| `TreePaths.ResolveBlob` | src/git/read.rs:912-940 | the loop over components computes the resolution of the path, with its errors |
| `TreePaths.ResolveMeaning` | src/git/read.rs:912-940 | a path resolves if and only if it names a file or link, to what it names; directories and submodules are no blobs |
| `TreePaths.NotTreeMeaning` | src/git/read.rs:912-940 | the error for a component that is no tree means that the path leads through a file |
| `TreePaths.LookupComposes` | src/git/read.rs:912-940 | looking up below a directory equals looking up the joined path |
| `TreePaths.SubtreeComposes` | src/git/read.rs:886-910 | a directory's entry is the directory at the joined path |
| `TreePaths.JoinedIsSafe` | src/git/read.rs:1223-1238 | joined names give paths without empty parts, `.`, `..` or zeros |
| `TreeDiff.FlattenTree` | src/git/read.rs:970-1002 | ends also on cyclic trees; a path is in the result exactly when it resolves, to the same id and mode; no listed path has an empty part, a part `.` or `..`, or a zero; a failure means a missing, damaged or foreign object for a tree, a bad name, a long path, or more distinct entries than the budget |
| `TreeDiff.RepeatedNamesDiffer` | src/git/read.rs:985-999 | of two entries with one name, resolution finds the first and the flat view keeps the last |
| `TreeDiff.DiffFiles` | src/git/read.rs:553-612 | one change for every path that differs and for no other, with both sides |
| `TreeDiff.DiffApplies` | src/git/read.rs:553-612 | applying the changes to the old files gives the new files |
| `TreeDiff.DiffTrees` | src/git/read.rs:553-612 | a path is listed exactly when it resolves differently in the two trees |
| `Ustar.SplitTarPath` | src/git/read.rs:1312-1326 | the search for the last usable slash equals its specification |
| `Ustar.SplitIsExact` | src/git/read.rs:1312-1326 | fails only when no legal name and prefix exist; otherwise the parts join to the path within 100 and 155 bytes |
| `Ustar.OctalReadsBack` | src/git/read.rs:1328-1338 | an octal field reads back as the number |
| `Ustar.WriteTarOctal` | src/git/read.rs:1328-1338 | in place: succeeds exactly when the number fits, fills the field and nothing else |
| `Ustar.WriteTarHeader` | src/git/read.rs:1285-1310 | in place: succeeds exactly when path and numbers fit, and yields the specified header |
| `Ustar.HeaderParses` | src/git/read.rs:1285-1310 | a header parser that checks magic and checksum reads the member back; the checksum always fits six digits |
| `TarStream.BoundedWriter.Write` | src/git/read.rs:1119-1147 | a write passes exactly when it stays within the limit, and otherwise writes nothing |
| `TarStream.WriteItem` | src/git/read.rs:1045-1075 | writes header, content and padding, or fails for an unwritable member or the byte limit |
| `TarStream.MembersAligned` | src/git/read.rs:1045-1075 | members are a multiple of 512 bytes |
| `TarStream.ArchiveReadsBack` | src/git/read.rs:667-703 | a tar reader gets exactly the members back |
| `ArchiveTree.VisitDirectory` | src/git/read.rs:1016-1079 | writes one directory's members and schedules its subdirectories; a failure is justified |
| `ArchiveTree.KindsAndModes` | src/git/read.rs:1016-1310 | the header's magic is `ustar` and its version `00`; files have kind `0` and mode 0644 or 0755, directories kind `5` and mode 0755 |
| `ArchiveTree.WriteArchive` | src/git/read.rs:667-703 | the output is aligned, within the limit and reads back as the tree's files and directories, each once, under safe paths, each directory before its contents; every failure has its cause in the tree or a limit |
| `PacketLine.EncodeData` | src/git/packetline.rs:14-25 | refused exactly beyond the limit; a decoder of the output finds what it found before and then this packet; empty data makes the output undecodable |
| `PacketLine.Decode` | src/git/packetline.rs:46-81 | the offset loop returns all packets or the first error |
| `PacketLine.HeaderRoundTrip` | src/git/packetline.rs:14-25 | a header reads back as its length |
| `PacketLine.DecodeInvertsEncode` | src/git/packetline.rs:14-81 | decoding inverts every sequence of non-empty data and control packets |
| `PacketLine.EncodeRestoresInput` | src/git/packetline.rs:46-81 | re-encoding what was decoded restores the input up to the case of header digits |
| `PacketLine.DecodeConcat` | src/git/packetline.rs:46-81 | decoding a concatenation concatenates the packets |
| `PacketLine.DecodeFailsExactly` | src/git/packetline.rs:46-81 | decoding fails with an error exactly behind whole packets that are followed by what no packet starts with |
| `Sideband.SidebandWriter.Write` | src/git/upload_pack.rs:312-325 | appends the packets of one write; no write is too large |
| `Sideband.ReaderGetsThePack` | src/git/packetline.rs:36-44 | however writes are split, channel 1 of the decoded output is their concatenation |
| `Sideband.WriteAll` | src/git/upload_pack.rs:289-301 | a sequence of writes produces the encoding of all their packets |
| `ReceiveStream.FirstFlushEnd` | src/git/packetline.rs:83-119 | the loop computes the boundary that the search below makes exact |
| `ReceiveStream.BoundaryIsStable` | src/git/packetline.rs:83-119 | a found boundary or error does not change when more bytes arrive |
| `ReceiveStream.UndecidedIsBounded` | src/git/packetline.rs:83-119 | while no boundary is found the buffer stays below the request plus the packet limit |
| `ReceiveStream.CommandsDecode` | src/git/packetline.rs:83-119 | the command part decodes with its only flush last |
| `ReceiveStream.SearchIsExact` | src/git/packetline.rs:83-119 | the search finds the end of a command part whenever there is one, fails exactly behind whole packets followed by what no packet can be or by too much, and otherwise waits |
| `ReceiveStream.ReceiveChannel.ReceiveData` | src/ssh.rs:2972-2985 | one chunk changes the channel as specified, or fails |
| `ReceiveStream.ReceiveChannel.WriteReceivePack` | src/ssh.rs:2987-2994 | counts and appends pack bytes up to the limit |
| `ReceiveStream.ChunkingDoesNotMatter` | src/ssh.rs:2972-2994 | any chunking of a stream leaves the channel as if it had arrived whole |
| `ReceiveStream.ChannelHoldsTheStream` | src/ssh.rs:2972-2994 | commands and pack together are the stream, and the commands decode once complete |
| `ReceiveStream.StreamIsAccepted` | src/ssh.rs:2972-2994 | every stream of packets with one closing flush and a pack, both within their limits, gets through whole, however it is cut |
| `ReceiveStream.StreamIsRefused` | src/ssh.rs:2972-2994 | a stream is refused exactly when its commands cannot go on or its pack is too long |
| `Base85.EncodeWord` | src/git/patch.rs:95-107 | the digit loop writes the five digits of a word |
| `Base85.UnwordWord` | src/git/patch.rs:95-107 | five base-85 digits read back as the word |
| `ZlibStore.ComputeAdler32` | src/git/patch.rs:130-139 | the reduced loop equals the mathematical sums, within 32 bits |
| `ZlibStore.AdlerHalves` | src/git/patch.rs:130-139 | the checksum in closed form: the bytes weighted by their distance from the end above, one plus their sum below |
| `ZlibStore.StoreBlocks` | src/git/patch.rs:111-128 | the loop writes header, blocks and checksum |
| `ZlibStore.ReadInvertsBlocks` | src/git/patch.rs:111-128 | a block reader that checks length complements returns the data; exactly the last block is final |
| `ZlibStore.InflateInvertsStore` | src/git/patch.rs:111-139 | inflating returns the data, checksum included |
| `BinaryLiteral.ReadInvertsLines` | src/git/patch.rs:92-109 | reading lengths and words of all lines returns the stream |
| `BinaryLiteral.LiteralRoundTrip` | src/git/patch.rs:86-147 | reading a binary literal returns every input byte string |
| `BinaryLiteral.PatchWriter.Write` | src/git/patch.rs:198-210 | a write passes exactly when it stays within the limit |
| `BinaryLiteral.PatchWriter.WriteBinaryLiteral` | src/git/patch.rs:86-109 | writes exactly the literal, and fails exactly when it does not fit |
| `Codec.EncodeLowerHex` | src/codec.rs:1-9 | the loop writes two lower-case digits for each byte |
| `Codec.DecodeLowerHex` | src/codec.rs:11-29 | both decoders return the encoded bytes |
| `Codec.StrictHexIsCanonical` | src/codec.rs:11-38 | strict decoding accepts only text that encoding reproduces |
| `Decimals.TextIsCanonical` | src/auth.rs:258-268 | printed numbers are canonical and read back |
| `Decimals.CanonicalIsText` | src/auth.rs:258-268 | canonical text is the print of its value |
| `LoginChallenge.ParseInvertsFormat` | src/auth.rs:60-71 | parsing a formatted well-formed challenge returns its fields |
| `LoginChallenge.FormatInvertsParse` | src/auth.rs:175-203 | every accepted text is the format of its fields, which are well formed |
| `LoginChallenge.UsernameIsBlamed` | src/auth.rs:175-203 | the username is blamed exactly when the text is right up to it and names no valid one |
| `AttemptLimiter.Limiter.Allow` | src/rate_limit.rs:33-56 | the pruned limiter answers exactly as one that keeps the full history |
| `AttemptLimiter.AnswerIsExact` | src/rate_limit.rs:33-56 | an attempt is let in exactly when the client had fewer acceptances in the window than permitted, and is live or there is room for one more |
| `AttemptLimiter.Limiter.Prune` | src/rate_limit.rs:36-44 | pruning keeps exactly the recent times and drops the empty keys |
| `AttemptLimiter.WindowMoves` | src/rate_limit.rs:36-44 | dropping from the front is forgetting exactly what left the window |
| `AttemptLimiter.WindowIsBounded` | src/rate_limit.rs:45-56 | in no window does a client get more than the maximum of acceptances |
| `AttemptLimiter.LiveKeysAreBounded` | src/rate_limit.rs:45-56 | at no time are more clients live than permitted |
| `MaintenanceGate.RunKeepsInv` | src/maintenance.rs:12-38 | queues hold exactly the waiting tasks and writers are alone, in every run of any number of tasks, whichever waiter the synchronous lock and the mutex admit |
| `MaintenanceGate.BackupsRunAlone` | src/backup.rs:48-61 | while a backup archives, nobody holds a mutation guard of either kind |
| `MaintenanceGate.OneOperationAtATime` | src/maintenance.rs:23-27 | at most one Git service operation runs |
| `MaintenanceGate.FinishedHasWorked` | src/maintenance.rs:12-38 | no task finishes without having held what guards its work: a Git operation the mutex, a backup both locks, a push its lease |
| `MaintenanceGate.SomeoneCanMove` | src/pull_request.rs:102-103 | no wait cycle: some task can move while one is unfinished |
| `MaintenanceGate.RunsAreBounded` | src/maintenance.rs:12-38 | every run is bounded by the work of its tasks, so every schedule finishes |

## Left out

- SQLite itself: the intent methods of the store are guarded transitions on rows, with the states and pull-request checks they demand; that a pull request has the recorded base and head is stated as having the recorded revision, since only revisions change them. Queries, migrations and events are not modelled.
- The Git library: pack indexing, merge computation, reference locks and hashing are parameters with stated assumptions (equal pack names hold equal objects, a merge base exists exactly for related commits, a prepared merge commit has base and head as parents, and writing it leaves everything below its tree in the store).
- Interleavings of pushes with merges: runs are serial, and the lemma named above shows why; pull-request reference writes, closing and reopening do interleave with both.
- Why a recovery inside a running server fails: the step system lets the server go on after any failure, input and output errors included.
- Quarantine directories: recovery removes them without consequence for references, packs or rows.
- Several repositories in one intent run: each run is about one repository.
- Cancellation, deadlines, timeouts and the wall clock: time is a parameter of the limiter, the others are not modelled.
- Barging: a task that asks for a lock joins its queue first; the asynchronous lock is first come, first served, as its library promises, the other locks admit any waiter.
- Blob size limits and total byte budgets of reads: one more comparison each.
- Order of listings: sets and maps stand for sorted collections where no property depends on the order.
- `patch_path`, the text parts of a patch, the advertisement of references and the protocol version 1 dialogue: single passes over fields.
- Pack header size limits and `decode_delta_size`: allocation checks before the objects are read.
- The exact error of a malformed object identifier in a push command: malformed and of the wrong format are one error here.
- The authorization of merges and the review rules before them: they only restrict which merges start, and no run theorem needs them.
- HTTP, templates, feeds, the SSH dialogue, configuration, the command line and backup contents: plumbing over libraries.
- Signatures, key handling and secret generation: foreign cryptography.
- Field validators of titles, descriptions and labels: one reading settles them.
- FlattenTree: requires that the trees below the root have distinct entry names, as Git demands; `TreeDiff.RepeatedNamesDiffer` shows that it must.
- WriteArchive: the same requirement on the trees below the root.
- DiffTrees: the same requirement on the trees below both roots.
- BranchesOnlyAdvance: says nothing across a deletion and a later creation of the same branch, which the policy permits.
