# Claude Codex Bridge: a verified model

Claude Codex Bridge lets one model review and repair the other's work in a fixed copy of a project, and then
writes the result back to the author's tree. This project models the parts of the bridge that have to be right
for that to be safe, and proves what they promise, for all inputs, all runs and all places an error can strike.

- **Workspace synchronization, v1** (`Paths`, `Trees`, `Changes`, `ChangeTheorems`, `Overlays`, `SyncTransaction`,
  `SyncTheorems`, `WorkspaceSync`, `WorkspaceRefresh`): the diff of two manifests, the collapse to disjoint roots,
  the stage / backup / replace / compare / rollback transaction, the approval gate, and the refresh of the peer's
  copy. A tree is a finite map from paths to files and directories; a fault is a point of the code at which an
  error is thrown.
- **Workspace synchronization, v2** (`V2TreeWalk`, `V2Snapshots`, `V2Workspace`, `V2Sync`): snapshots, the check
  against explicit repair targets, and the per-file transaction with its phase observer.
- **The v2 review series** (`IdSets`, `V2Gate`, `V2Series`, `V2SeriesInvariants`, `V2SeriesTheorems`,
  `V2SeriesRecords`, `V2SeriesStore`): the compare-and-swap state machine with rounds, attempts, adjudication and crash recovery.
- **Execution by the v2 service** (`V2Executions`, `V2Service`): the phases of a synchronization as transitions of
  the store, one execution as a program with an exception at any point, and all interleavings of executions.
- **The v1 daemon** (`JobStates`, `JobStore`, `Scheduler`, `KeyedLock`, `Sessions`): the job store and its index,
  the scheduler, the keyed promise lock, the session maps.
- **The Claude stream** (`Lines`, `ClaudeMonitor`, `ClaudeStream`): framing, protocol monitor, classification.

Objects that the program updates in place are classes here. Each method is proved against a function of the old
state, and the theorems are about that function and about runs of it. `dafny verify dfyconfig.toml` checks it all.

## What the proofs found

Some promises do not hold for every fault or input. The code is modelled as it is; for each there is a theorem with
the exact condition and a lemma with an input at which the promise fails.

- v1 rollback clears every affected root, also those not yet backed up. A fault while staging or backing up, or
  while the backups are deleted at the end, can lose author files (`SyncTheorems.RollbackRestoresFilesExactly`;
  `SyncTheorems.FaultsLoseAnEditedFile`).
- v1 never copies an added empty directory, yet compares manifests that list it, so a sync whose scope contains
  one can fail and roll back without any fault (`SyncTheorems.ScopedManifestsMatchExactly`;
  `SyncTheorems.AddedEmptyDirectoryFailsTheComparison`).
- v2 loses an original when the rename after its unlink fails, or when the final cleanup stops half way
  (`V2Sync.RollbackRestoresContentExactly`; `V2Sync.FailedRenameLosesTheOriginal`).
- v2 rollback restores content but not modes (`V2Sync.RollbackRestoresModesExactly`; `V2Sync.RollbackChangesTheMode`).
- A v2 sync verifies only if the peer's files have the fixed mode staged copies are created with
  (`V2Sync.VerifiedSyncCopiesTheWorkspace`; `V2Sync.ForeignModeFailsVerification`).
- A refresh whose last step, the deletion of the previous copy, fails throws the good new copy away and keeps what
  is left of the previous one (`WorkspaceRefresh.RefreshRestoresExactly`; `WorkspaceRefresh.FailedCleanupKeepsTheWreck`).
- Two different pairs of origin and idempotency key can be joined to one key, and then a request whose pair was
  never used is refused (`JobStore.KeysMeetExactly`, `JobStore.UnusedPairIsRefusedExactly`;
  `JobStore.SeparatorsInOriginsCollide`, `JobStore.UnusedPairIsRefused`).
- A submission whose record cannot be saved stays queued in memory without a scheduling request, so a free slot can
  stay idle (`Scheduler.FailedSaveLosesWakeupExactly`; `Scheduler.FailedSaveLosesAWakeup`). Nothing else loses a
  wake-up (`Scheduler.WakeupsAreNeverLost`).
- The session file can list one thread with two sessions and still load; the maps are then not inverse
  (`Sessions.LoadedMapsAreInverse`; `Sessions.TwoSessionsOfOneThreadLoad`).

## Model

| member | source | states |
|---|---|---|
| Paths.CollapseAffectedRoots | src/workspace.ts:642-650 | the collapsed list is exactly the inputs without a proper ancestor among the inputs, pairwise unrelated, shortest first |
| Paths.CollapsedRootsPartition | src/workspace.ts:642-650 | every input path lies under exactly one collapsed root |
| Paths.OutermostPaths | src/workspace.ts:615-620 | the greedy scan in length order keeps exactly the outermost paths |
| Changes.ClassifyWorkspaceChanges | src/workspace.ts:512-640 | the loops compute, for any two manifests, exactly the declaratively defined ordinary changes and high-risk changes (retype, re-mode, unique-fingerprint rename, outermost delete) |
| Changes.PairRenames | src/workspace.ts:591-613 | pairing fingerprint groups of size one on both sides yields exactly the renames, and takes both ends out of the other lists |
| Changes.GroupByFingerprint | src/workspace.ts:576-590 | the groups hold each file once, under its content and mode |
| Changes.ScanCurrent | src/workspace.ts:524-563 | one pass finds exactly the edited and added files, the retyped and the re-moded paths |
| Changes.ScanBaseline | src/workspace.ts:565-574 | the removed paths are those missing and not strictly beneath a retyped path |
| ChangeTheorems.AffectedPathsAre | src/workspace.ts:700-705 | the paths handed to the transaction, characterised by what happened to each path, without the change records |
| ChangeTheorems.DiffIsComplete | src/workspace.ts:512-640 | every path that differs, except an added directory, lies at or under a reported path |
| ChangeTheorems.DiffIsSound | src/workspace.ts:512-640 | only paths that differ are reported, and never an added directory |
| ChangeTheorems.OrdinaryChangesKeepEveryPath | src/workspace.ts:524-563 | without a high-risk change every baseline path survives with its kind and mode, and directories unchanged |
| ChangeTheorems.RenamesAreAPartialInjection | src/workspace.ts:591-613 | renames pair removed with added files of equal content and mode, one to one, and share no path with any other change |
| ChangeTheorems.RemovedPathsAreAccountedFor | src/workspace.ts:565-630 | a removed path is a rename source, lies under exactly one delete root, or lies strictly beneath a retyped path |
| ChangeTheorems.RecordsSayWhatChanged | src/workspace.ts:544-630 | from the trees alone: which action a record carries, exactly, and that its digests and modes are those of the baseline at the origin and of the current tree at the path |
| ChangeTheorems.EveryRiskIsRecorded | src/workspace.ts:544-557 | every retyped and every re-moded path has a record of that action, and no two records share a path that stays |
| ChangeTheorems.RenameIsRecordedExactly | src/workspace.ts:591-613 | a rename is recorded if and only if one path is gone, one is new, both hold the same content and mode, and no other gone or new path does |
| ChangeTheorems.OrdinaryChangesAre | src/workspace.ts:524-563 | a path is an ordinary change if and only if it is a file edited under one mode, or a new file that is no rename target |
| SyncTransaction.Transaction.CopyEntry | src/workspace.ts:652-691 | a copy brings over the whole subtree of the path, creates missing parents, and reports a missing source |
| SyncTransaction.Transaction.BackUpRoots | src/workspace.ts:722-740 | after n roots the target has lost exactly their subtrees and the backup holds exactly those |
| SyncTransaction.Transaction.ReplaceRoots | src/workspace.ts:742-755 | after n roots the target is the overlay of those roots, including the parents created for the next one |
| SyncTransaction.Transaction.Rollback | src/workspace.ts:766-776 | clearing every root and moving the backups back, in reverse order, gives the old target without the roots plus the backups |
| SyncTransaction.Transaction.Apply | src/workspace.ts:693-783 | for any fault: success exactly without a fault and with matching scoped manifests, then the overlay; otherwise the rolled-back tree of the fault that struck first |
| SyncTransaction.OverlayIsWellFormed | src/workspace.ts:742-755 | whatever roots are done, every path of the target still has its directories |
| SyncTransaction.RollbackResult | src/workspace.ts:765-777 | clear-and-restore from the state at any fault equals the closed form of the rolled-back tree |
| SyncTheorems.ClassifiedRootsAreSynchronizable | src/workspace.ts:700-705 | the roots collapsed from a classification cover every difference the transaction has to copy |
| SyncTheorems.AppliedTreeAt | src/workspace.ts:693-755 | path by path, the applied tree is the peer's, except added directories outside the roots |
| SyncTheorems.AppliedTreeHasThePeersFiles | src/workspace.ts:693-755 | after a successful apply the target has exactly the peer's files at every path, without relying on the final hash check; only empty added directories can be missing |
| SyncTheorems.DirectoriesLeftBehindAreEmpty | src/workspace.ts:742-755 | a directory that is not copied holds no file of the peer |
| SyncTheorems.ScopedManifestsMatchExactly | src/workspace.ts:757-763 | the final comparison succeeds if and only if every added directory in scope is created on the way to a root and with the peer's mode |
| SyncTheorems.RollbackRestoresFilesExactly | src/workspace.ts:765-777 | a rollback gives back every author file if and only if the fault is not one that strikes before the affected files are backed up or while their backups are deleted |
| SyncTheorems.LateFaultsRestoreTheTree | src/workspace.ts:741-777 | for a fault anywhere from the end of the backup loop to the hash check, also inside a recursive directory creation, every entry comes back and only created parent directories remain |
| SyncTheorems.FaultsLoseAnEditedFile | src/workspace.ts:765-770 | concrete faults while staging, backing up and cleaning up after which an edited author file is gone |
| SyncTheorems.AddedEmptyDirectoryFailsTheComparison | src/workspace.ts:757-763 | an added empty directory in scope with which the transaction fails without any fault |
| WorkspaceSync.WorkspaceChangesAllowed | src/workspace.ts:437-458 | passes exactly when no path differs outside the allowed paths |
| WorkspaceSync.WorkspaceManager.ApprovalVerdict | src/workspace.ts:964-997 | without risky changes an approval is refused; with them it is required and has to name exactly the pending identifiers |
| WorkspaceSync.WorkspaceManager.Sync | src/workspace.ts:927-1013 | the order of the checks, each refusal leaving the target untouched, and for the rest the exact tree after success or after any fault |
| WorkspaceSync.UnapprovedSyncKeepsEveryPath | src/workspace.ts:959-998 | a sync without approval deletes, renames, retypes and re-modes no author path |
| WorkspaceSync.SyncStaysInScope | src/workspace.ts:437-458 | neither success nor rollback after any fault changes a path outside the allowed ones |
| WorkspaceRefresh.Refresh.Run | src/workspace.ts:365-420 | success exactly when copy and installed workspace equal the baseline and nothing fails; the workspace after every failure |
| WorkspaceRefresh.RefreshRestoresExactly | src/workspace.ts:405-419 | a failed refresh leaves the old workspace intact if and only if the failure is not a partial deletion of it |
| WorkspaceRefresh.FailedCleanupKeepsTheWreck | src/workspace.ts:406-416 | a refresh with a good new copy after which half of the old one is what stays |
| Trees.ManifestDeterminesTree | src/workspace.ts:485-500 | equal manifests, hashes being injective, mean equal trees |
| IdSets.SortedUniqueDecidesSets | src/workspace.ts:966-971 | two lists are equal after sort and dedupe if and only if they have the same elements |
| IdSets.IdsMatch | src/daemon/scheduler.ts:388-399 | the index-wise comparison accepts exactly the lists with the same elements |
| IdSets.DecisionCoversExactlyThePartitions | src/v2/series.ts:485-509 | the two list checks accept exactly the pairs that partition the findings; findings with a repeated identifier never pass |
| IdSets.AdjudicationIsPossibleExactly | src/v2/series.ts:485-509 | some decision passes the checks if and only if no finding identifier repeats, and rejecting all findings is then one |
| IdSets.EveryReviewCanBeAdjudicated | src/v2/renderer.ts:116-119 | identifiers digest position and content, so without a digest collision they are distinct, equal findings included, and the review can be adjudicated |
| V2TreeWalk.TreeWalk.Snapshot | src/v2/path.ts:217-293 | in any walk order: a snapshot exists if and only if no two paths fold together and no two files share an identity, and it lists every entry once, in order |
| V2Snapshots.SnapshotComparisonDecidesTrees | src/v2/path.ts:295-313 | the index-wise comparison of two ordered snapshots decides equality of the trees and, when asked, of the file identities |
| V2Workspace.ValidateChanges | src/v2/workspace.ts:374-431 | passes exactly when every change is a repair of its listed target, and then lists exactly the changed paths |
| V2Workspace.ValidatedResultOverlaysTheBaseline | src/v2/workspace.ts:374-431 | a validated result is the baseline overlaid at listed targets: same directories, no path lost, each change with the matching action and the old mode |
| V2Workspace.Transaction.ReplaceFiles | src/v2/workspace.ts:476-497 | after a fault at any file: which files are replaced, which original is unlinked, what the backup holds and which phases were announced |
| V2Workspace.Transaction.VerifyFiles | src/v2/workspace.ts:498-510 | verification passes exactly when every changed file of the peer has the staged mode |
| V2Workspace.Transaction.RollBack | src/v2/workspace.ts:514-530 | undoing the recorded files in reverse gives the target without them plus their backups, also when the observer throws at the announcement |
| V2Workspace.Transaction.Replay | src/v2/workspace.ts:462-538 | for any number of files and any fault: success, target and emitted phase trace in closed form |
| V2Workspace.RollbackResult | src/v2/workspace.ts:518-530 | undoing from the state at any fault equals the closed form of the rolled-back tree |
| V2Sync.Sync | src/v2/workspace.ts:443-538 | drift and scope refusals leave the tree and the observer untouched; otherwise the exact tree and phase trace |
| V2Sync.VerifiedSyncCopiesTheWorkspace | src/v2/workspace.ts:498-510 | the replaced tree equals the workspace tree if and only if the verification condition holds |
| V2Sync.SuccessfulSyncEqualsTheWorkspace | src/v2/workspace.ts:443-513 | after a successful sync the author's tree equals the workspace tree at every path |
| V2Sync.RollbackRestoresContentExactly | src/v2/workspace.ts:514-530 | a rollback restores all content and removes all created files if and only if no original was between unlink and rename and no backup was deleted |
| V2Sync.RollbackRestoresModesExactly | src/v2/workspace.ts:471-489 | modes come back if and only if the replaced originals had the mode of the backups |
| V2Sync.ForeignModeFailsVerification | src/v2/workspace.ts:498-510 | a validated repair that fails verification without any fault because of its mode |
| V2Sync.RollbackChangesTheMode | src/v2/workspace.ts:484 | a validated repair whose rollback restores the content with another mode |
| V2Sync.FailedRenameLosesTheOriginal | src/v2/workspace.ts:491-495 | a validated repair whose original is lost by a failed rename, and by a failed cleanup |
| V2SeriesStore.SeriesStore.Submit | src/v2/series.ts:244-347 | the checks in order and, on acceptance, the linked predecessor, the new job and the advanced series; a rejection changes nothing |
| V2SeriesStore.SeriesStore.Transition | src/v2/series.ts:349-382 | moves the job along the table or rejects without effect |
| V2SeriesStore.SeriesStore.Complete | src/v2/series.ts:384-468 | the terminal state, the accepted rounds and the series status, or a rejection without effect |
| V2SeriesStore.SeriesStore.Adjudicate | src/v2/series.ts:470-535 | the checks in order; the decision recorded and the series idled, or a rejection without effect |
| V2SeriesStore.SeriesStore.RecoverUncertain | src/v2/series.ts:560-576 | completing the interrupted jobs one at a time, in any order, equals recovering all of them at once |
| V2SeriesInvariants.SubmitKeepsInv | src/v2/series.ts:244-347 | an accepted submission keeps the invariant of counters, job chain, status and gate |
| V2SeriesInvariants.CompleteKeepsInv | src/v2/series.ts:384-468 | so does a completion with any outcome |
| V2SeriesInvariants.RecoverySettlesEverything | src/v2/series.ts:560-576 | recovery leaves no job unfinished and does nothing when run again |
| V2SeriesTheorems.ReachableStoresFit | src/v2/series.ts:244-576 | every store reachable by any sequence of operations satisfies the invariant |
| V2SeriesTheorems.SeriesIsBounded | src/v2/series.ts:305-311 | accepted rounds are 1..k with k at most 3; the version equals the number of jobs and the sum of attempts; at most six jobs |
| V2SeriesTheorems.OnlyTheLatestIsUnfinished | src/v2/series.ts:299-304 | an unfinished job is the latest of its series, whose status is running; all others are terminal |
| V2SeriesTheorems.JobsFormOneChain | src/v2/series.ts:312-343 | the successor links form one unforked chain; the jobs are numbered 1..n, each number once, and the latest has n |
| V2SeriesTheorems.SubmissionSucceedsExactly | src/v2/series.ts:275-311 | a submission to an existing series succeeds if and only if the series is idle with rounds and attempts left and the request carries its current token and contract |
| V2SeriesTheorems.CompletionOutcomes | src/v2/series.ts:402-461 | a completion closes the series exactly by an accepted pass, hands it to the user exactly when nothing is left to try, and leaves it open otherwise |
| V2SeriesTheorems.TokensAreConsumedOnce | src/v2/series.ts:285-293 | along a run no two accepted submissions of a series carry the same compare-and-swap token |
| V2SeriesTheorems.RunAdvances | src/v2/series.ts:294-298 | along a run the contract is fixed, versions never go back, and completion and adjudication stay as recorded |
| V2SeriesTheorems.AwaitingUserMeansExhausted | src/v2/series.ts:410-419 | a series awaiting the user has used up its rounds or the attempts of its current round |
| V2SeriesTheorems.SettledSeriesTakesNoSubmission | src/v2/series.ts:305-311 | after that, adjudicated or not, no later submission in any run succeeds |
| V2SeriesTheorems.AdjudicatedAtMostOnce | src/v2/series.ts:478-534 | a series is adjudicated at most once in a run |
| V2SeriesTheorems.CompletionIsFinal | src/v2/series.ts:275-279 | a completed series never changes again, and its latest job carries a passing gate |
| V2SeriesRecords.FirstSubmissionSucceedsExactly | src/v2/series.ts:253-274 | the first submission of a series succeeds if and only if it carries no token |
| V2SeriesRecords.SubmissionQueues | src/v2/series.ts:305-333 | the queued job: the next version, the next round, the next attempt of it, and nothing of an earlier job |
| V2SeriesRecords.SubmissionCounts | src/v2/series.ts:305-345 | the series after it: one attempt of one round more, the same accepted rounds, the new job the latest, the status running |
| V2SeriesRecords.SubmissionLinks | src/v2/series.ts:334-342 | the predecessor gains its successor; no other job changes |
| V2SeriesRecords.TransitionRecords | src/v2/series.ts:349-382 | accepted if and only if the table has the step from an unfinished job; then the job is in the state asked for, with the patch applied, and nothing else changes |
| V2SeriesRecords.TableGoesForward | src/v2/series.ts:41-52 | every step of the table goes forward, at most replacing repeats, and none reaches a terminal state |
| V2SeriesRecords.CompletionAcceptedExactly | src/v2/series.ts:400-409 | accepted if and only if the job exists and is unfinished; only that job and its series change |
| V2SeriesRecords.CompletionRecords | src/v2/series.ts:413-464 | the state asked for, or awaiting the user together with the series, and gate, error, findings, review and tests as given, else as they were |
| V2SeriesRecords.CompletionAcceptsItsRound | src/v2/series.ts:410-412 | the accepted rounds grow by the round of the job when it is accepted, and not otherwise |
| V2SeriesRecords.AdjudicationAcceptedExactly | src/v2/series.ts:470-519 | accepted if and only if job and series await the user, the lists partition the findings, and a decision for the author rejects all of them, one for the reviewer accepts all |
| V2SeriesRecords.AdjudicationRecords | src/v2/series.ts:520-535 | job and series record exactly the decision, the series goes idle, and nothing else changes |
| V2SeriesRecords.RecoveryRecords | src/v2/series.ts:560-576 | an interrupted job ends failed, or before the user after its second attempt, with the recovery error; every other job stays |
| V2Gate.GatePassesExactly | src/v2/gate.ts:36-65 | pass if and only if nothing failed, the reviewer said pass, every test passed and nothing changed; likewise for failed and disagreement |
| V2Gate.GateExplainsItself | src/v2/gate.ts:36-65 | the reason is exactly the first condition that holds, and the failed commands are handed on |
| V2Gate.FailedTests | src/v2/gate.ts:36-40 | the failed commands are exactly those of the failed results; none if and only if all passed |
| V2Executions.EveryPhaseTraceIsLegal | src/v2/workspace.ts:462-515 | every phase trace, for any number of files and any fault, is a path of the transition table from validation_complete |
| V2Service.Service.Observe | src/v2/service.ts:395-402 | playing an emitted trace into the store never has a transition rejected |
| V2Service.Service.Synchronize | src/v2/service.ts:394-404 | a synchronization observed by the store: it succeeds if and only if the scene is undrifted, only listed targets were repaired, modes match and no fault strikes; the delta, the tree it leaves, and a job still unfinished |
| V2Service.SyncGoesExactly | src/v2/workspace.ts:443-538 | success of a synchronization, and whether it changed anything, in terms of the trees, the sealed snapshot and the fault |
| V2Service.Service.Attempt | src/v2/service.ts:304-419 | wherever the script throws: the job has ended if and only if the peer failed, evidence was asked for or the review completed, and then with exactly that completion |
| V2Service.Service.Conclude | src/v2/service.ts:381-419 | tests, synchronization, gate and rendering of a final review: the synchronization is reached exactly when all tests passed, and the round is accepted exactly when it went well and nothing threw |
| V2Service.Service.Execute | src/v2/service.ts:301-441 | one execution, whatever throws: no transition is rejected, job and series end with exactly the completion that answer, tests, stop and trees call for, and the tree agrees with it |
| V2Service.EndingsAre | src/v2/service.ts:334-441 | the three ways to end: an accepted round with its review, findings and gate, a request for evidence, or a failure with its error; when the gate passes |
| V2Service.ExecutionsEndExactly | src/v2/service.ts:301-441 | the round is accepted if and only if the review completes, the series closes if and only if it passes, and the state the job ends in, including the hand-over to the user |
| V2Executions.ServiceRunFits | src/v2/service.ts:301-441 | in any interleaving of executions, submissions and adjudications every job keeps up with its execution and the invariant holds |
| V2Executions.ExecutionsAreNeverRejected | src/v2/service.ts:301-441 | in any interleaving no transition and no first completion is rejected, and a finished execution leaves its job terminal |
| V2Executions.InterleavedExecutionsAreServiceRuns | src/v2/service.ts:301-441 | any interleaving of whole or unfinished executions, as `Execute` produces them, is such a run |
| V2Executions.EveryLifetimeBeginsSettled | src/v2/series.ts:560-576 | across any number of lifetimes, each cut short anywhere and followed by recovery, every lifetime begins in a store from which all of this holds |
| V2Executions.CompletedSeriesPassed | src/v2/service.ts:405-419 | in service-driven runs a completed series has a latest job with a passing review, every test passed and no artifact delta |
| Scheduler.FillIsMaximal | src/daemon/scheduler.ts:548-560 | a fill starts only queued jobs never started before, on free threads, and stops only with three active jobs or with no queued job on a free thread |
| Scheduler.ThreadsAreServedInOrder | src/daemon/scheduler.ts:550-556 | a fill never starts a job while an older queued job of the same thread waits |
| Scheduler.StepKeepsInv | src/daemon/scheduler.ts:254-303 | every event keeps the slots, the queue bound and the record of started jobs |
| Scheduler.ReachableStatesFit | src/daemon/scheduler.ts:254-602 | so does every interleaving of events |
| Scheduler.StepKeepsWakeup | src/daemon/scheduler.ts:294-303 | every event but a failed save keeps a fill pending while there is work, and announcing, filling and finishing bring it back |
| Scheduler.WakeupsAreNeverLost | src/daemon/scheduler.ts:294-303 | in any run without a failed save, whenever a slot and a queued job's thread are free a fill is on its way or the daemon stops |
| Scheduler.FailedSaveLosesWakeupExactly | src/daemon/scheduler.ts:286-291 | a failed save loses the wake-up if and only if there is work, no fill is pending and the daemon does not stop |
| Scheduler.FailedSaveLosesAWakeup | src/daemon/scheduler.ts:286-291 | a run of three events that ends with a ready job, free slots and no fill pending |
| Scheduler.LimitsHold | src/constants.ts:20-22 | at most three active and twenty queued jobs; the active threads are exactly the image of the active jobs; two executing jobs never share a thread |
| Scheduler.NoJobStartsTwice | src/daemon/scheduler.ts:560-570 | along a run no job is given a slot twice |
| Scheduler.FinishKeepsInv | src/daemon/scheduler.ts:570-600 | the end of an execution frees exactly its slot and thread and leaves its job terminal |
| Scheduler.FinishRecords | src/daemon/scheduler.ts:570-600 | an unfinished job is failed, a finished one keeps its state, one slot and one thread are freed, and a fill is asked for unless the daemon stops |
| Scheduler.V1Scheduler.FillSlots | src/daemon/scheduler.ts:548-602 | the loop over free slots computes the fill, with the number of free slots as its measure |
| Scheduler.V1Scheduler.FindNext | src/daemon/scheduler.ts:550-556 | the search returns the oldest ready job |
| Scheduler.V1Scheduler.Submit | src/daemon/scheduler.ts:280-285 | a submission is admitted exactly below the queue limit |
| Scheduler.V1Scheduler.EndExecution | src/daemon/scheduler.ts:570-600 | fails an unfinished job, releases slot and thread, and asks for a fill |
| JobStates.PathsAreShort | src/daemon/state-machine.ts:4-27 | along allowed transitions a rank strictly falls, so a history has at most six states and repeats none |
| JobStore.StepKeepsInv | src/daemon/store.ts:170-366 | every method keeps the index the exact inverse of the records and every history a path of the table |
| JobStore.ReachableStoresFit | src/daemon/store.ts:170-366 | so does every sequence of calls |
| JobStore.RecordsAreUnique | src/daemon/store.ts:374-376 | no two records share a key; each history ends in the current state after at most six entries |
| JobStore.TransitionRecords | src/daemon/store.ts:218-251 | accepted if and only if the table has the step; then the record is in the state asked for, one entry longer in its history, with error and result as patched, and nothing else changes |
| JobStore.PatchRecords | src/daemon/store.ts:253-275 | a patch sets or clears what it names and leaves state, history and every other record alone |
| JobStore.CreationRecords | src/daemon/store.ts:170-216 | a request is created if and only if no record has its key; then exactly one queued record and its index entry are new |
| JobStore.DeletionRecords | src/daemon/store.ts:351-366 | accepted if and only if the job is terminal; exactly its record and its index entry go |
| JobStore.RunContinues | src/daemon/store.ts:218-251 | along a run a record keeps its request, its history only grows, and a final state is final |
| JobStore.CreateIsIdempotent | src/daemon/store.ts:179-191 | until the job is deleted the same request finds it, another request with its key is refused, and neither changes the store |
| JobStore.KeysMeetExactly | src/daemon/store.ts:374-376 | two pairs have one key if and only if they are equal or one origin with a separator begins the other and the keys complete it |
| JobStore.UnusedPairIsRefusedExactly | src/daemon/store.ts:178-190 | a request whose pair was never used is refused if and only if a record's pair collides with it, and is created otherwise |
| JobStore.UnusedPairIsRefused | src/daemon/store.ts:178-190 | a concrete request refused although its pair was never used |
| JobStore.KeysAreInjective | src/daemon/store.ts:374-376 | the joined key stands for origin and key when origins hold no separator |
| JobStore.SeparatorsInOriginsCollide | src/daemon/store.ts:374-376 | without that, two different pairs can join to one key |
| JobStore.LoadedIndexIsInverse | src/daemon/store.ts:113-144 | a loaded index is the inverse of the records if and only if no two files share a key |
| JobStore.RecoverySettles | src/daemon/store.ts:323-349 | an uncertain job needs attention, an overdue queued one expires, each with its error, every other one stays as it is; a second run is a no-op |
| JobStore.Jobs.Create | src/daemon/store.ts:170-216 | finds, refuses or creates, as one step |
| JobStore.Jobs.DeleteTerminal | src/daemon/store.ts:351-366 | deletes a terminal record and its own index entry only |
| JobStore.Jobs.RecoverUncertain | src/daemon/store.ts:323-349 | the loop over the records, in any order, equals recovering all of them at once |
| KeyedLock.ReachableStatesFit | src/daemon/store.ts:383-399 | in every interleaving callers are chained in call order and the map names the last unreleased one |
| KeyedLock.MutualExclusionInCallOrder | src/daemon/store.ts:383-399 | at most one caller of a key runs, and nobody enters before every earlier caller has released |
| KeyedLock.EntryWhileUnreleased | src/v2/series.ts:590-606 | the map has an entry for a key exactly while some caller of it has not released |
| KeyedLock.OldestCallerProceeds | src/daemon/store.ts:383-399 | the oldest unreleased caller of a key is running or may enter: the chain cannot block itself |
| KeyedLock.Locks.Release | src/daemon/store.ts:383-399 | a release, after success or failure, removes the entry only when the caller is the last in line |
| Sessions.ReachableMapsAreInverse | src/daemon/sessions.ts:112-194 | the two maps stay mutually inverse under any sequence of assignments, resets and status updates |
| Sessions.TargetsAreFixed | src/daemon/sessions.ts:132-139 | a thread never changes its target |
| Sessions.AssignmentAcceptedExactly | src/daemon/sessions.ts:112-139 | accepted if and only if no other thread owns the session, the target is the thread's, and a change of its session comes with a context reset |
| Sessions.AssignmentRecords | src/daemon/sessions.ts:140-181 | then the thread owns that session and no other, every other ownership stays, and target, status, model and creation time are as given or kept; a refusal changes nothing |
| Sessions.StatusRecords | src/daemon/sessions.ts:183-194 | a status update changes the status of one known thread only |
| Sessions.StepKeepsOwner | src/daemon/sessions.ts:123-176 | one operation takes a session from its thread if and only if it is an accepted context reset of that thread to another session |
| Sessions.SessionsMoveOnlyAfterAReset | src/daemon/sessions.ts:123-176 | along a run a session that left its thread was released by such a reset |
| Sessions.LoadedMapsAreInverse | src/daemon/sessions.ts:54-91 | after loading, the maps are inverse if and only if the file lists no thread with two sessions |
| Sessions.TwoSessionsOfOneThreadLoad | src/daemon/sessions.ts:54-91 | a file that loads into maps that are not inverse |
| Sessions.SessionStore.Load | src/daemon/sessions.ts:37-92 | loading succeeds exactly when every entry names a session and no session two threads, and then both maps agree with the file |
| Sessions.SessionStore.AssignPeer | src/daemon/sessions.ts:112-181 | the three refusals in order, else the new owner, with the old session released |
| Lines.SplitIsAnInverseOfJoin | src/adapter/claude.ts:936-938 | the pieces hold no newline and join back to the text |
| Lines.SplitContinues | src/adapter/claude.ts:936-938 | splitting the rest together with the kept partial line gives the lines of the whole text |
| Lines.DecodeContinues | src/adapter/claude.ts:927-936 | decoding chunk by chunk, also across a character, gives the text of the whole output |
| ClaudeStream.ChunksDoNotMatter | src/adapter/claude.ts:927-967 | within the byte limit, what is read is what reading the whole output at once gives, however it was cut |
| ClaudeStream.OutcomeIgnoresChunks | src/adapter/claude.ts:1019-1087 | so two ways of cutting an output are classified alike |
| ClaudeStream.LongOutputIsStopped | src/adapter/claude.ts:930-935 | beyond the byte limit the stream is always stopped, so never a success |
| ClaudeStream.SuccessExactly | src/adapter/claude.ts:1019-1087 | success if and only if the process ended well and the output, within the limit and ending on a line end, is a clean exchange with an init and a good result, said of its events and not of the monitor |
| ClaudeStream.FailuresExactly | src/adapter/claude.ts:1019-1087 | when each other outcome is given: cancelled, spawn error, isolation, model, interrupted, result and parameter errors |
| ClaudeStream.SuccessMeansMonitored | src/adapter/claude.ts:1209-1381 | success implies an init, every init with exactly the expected tools and no other model, one result, and only accepted file paths and exactly allowlisted commands with fresh identifiers |
| ClaudeStream.ClaudeReader.Read | src/adapter/claude.ts:928-965 | one chunk of bytes: count, decode, cut, strip, skip blanks, hand over line by line, stop at the first violation |
| ClaudeMonitor.InitPassesExactly | src/adapter/claude.ts:1228-1260 | an init event passes if and only if it lists the expected tools as a multiset and the reported model, now or earlier, is the expected one |
| ClaudeMonitor.EventIsMonitored | src/adapter/claude.ts:1209-1381 | an event without violation is allowed and keeps the record in agreement with the stream so far |
| ClaudeMonitor.BlockPassesExactly | src/adapter/claude.ts:1268-1339 | a block passes if and only if it is allowed and no Bash call reuses an identifier; a block that is not allowed is an isolation breach, a reused identifier a protocol error |
| ClaudeMonitor.StreamsPassExactly | src/adapter/claude.ts:1209-1381 | a stream passes if and only if every event is allowed, the identifiers are fresh, there is one result at most, the first init reports the model, and the hook does not throw on it |
| ClaudeMonitor.InitFailsExactly | src/adapter/claude.ts:1228-1260 | which violation an init event gives: wrong tools, wrong model, or no list and a throwing hook |
| ClaudeMonitor.FirstBadBlockDecides | src/adapter/claude.ts:1262-1340 | the first bad block of a message decides how the message fails |
| ClaudeMonitor.OtherEventsFailExactly | src/adapter/claude.ts:1209-1226 | among the other events only a non-event and a second result fail, as protocol errors |
| ClaudeMonitor.CleanStreamsAreMonitored | src/adapter/claude.ts:1209-1381 | a stream without violation is a monitored one |
| ClaudeMonitor.TestCommandEvidence | src/adapter/claude.ts:738-764 | the three lists hold exactly what the invocations of the required commands say |
| ClaudeMonitor.StatusesAreReported | src/adapter/claude.ts:1342-1363 | each recorded invocation is completed and failed exactly as the last result reported after its call says |
| ClaudeMonitor.EvidenceIsWhatWasReported | src/adapter/claude.ts:738-764 | a required command is missing exactly when the stream never called it, else noted as passed, failed or without result exactly when some call of it was reported so |

## Left out

- HTTP and MCP servers, command line, tokens, process control, the sandbox, the Codex adapter: input and output around the model; the peer is an arbitrary outcome here.
- Schema checks, review-contract wording and rendering: facts about single branches.
- SHA-256 and JSON encoding: a hash is an injective function of what is hashed.
- `.git` metadata, links, special files, the root directory's own entry, path normalization: no part of a tree; paths are sequences of case-sensitive segments. Case folding appears in `V2TreeWalk` as an arbitrary function.
- The order in which reported lists are sorted for display, and locale collation: reported changes are sets, and the order of snapshots is any strict total order on paths.
- The mode of a directory created on the way to another, and the mode of a staged file: constants of the transaction classes.
- Errors inside a rollback itself, which v1 ignores and v2 rethrows: rollback steps succeed in the model.
- Changes made to the author's tree by others while a transaction runs: the tree is read once by the drift check.
- Disk persistence, torn writes and a crash inside a submission: a locked method is one step. Saves that fail are modelled where the program can notice them.
- Overlap of target roots in `prepare`, concurrent approvals, capacity reservations: checks and effects there are separated by awaits.
- Renewal and expiry of approval leases, retention, configuration and routing: arithmetic on clocks, and tables.
- Timestamps and informational fields of the records: they are carried along unread.
- Lines.DecodeContinues: the decoder is any state machine over bytes; which bytes make which characters is not modelled.
- ClaudeMonitor.InitPassesExactly: tool names are interned as numbers, since only their order and equality matter.
- ClaudeMonitor.CleanStreamsAreMonitored: parsing a line and resolving a path against the workspace are functions of the configuration, so what they accept is not modelled.
- V2TreeWalk.TreeWalk.Snapshot: visits the entries in any order instead of directory by directory; the final sort makes the order irrelevant.
- V2Service.Service.Synchronize: the observer's transitions are made after the transaction, in the order of the announced phases; a throwing observer is one of the transaction's faults.
- V2Sync.RollbackRestoresContentExactly: promises content, not modes; modes have a theorem of their own.
- V2Executions.ServiceRunFits: is about one lifetime of the daemon; `V2Executions.EveryLifetimeBeginsSettled` joins them.
- V2Executions.ExecutionsAreNeverRejected: an execution is any sequence of operations that `Execute` may produce by its contract, not by its program text.
- Scheduler.ReachableStatesFit: a submission that finds its job by idempotency key changes nothing and is no event; retention deletes a record only when its execution is over.
- SyncTransaction.Transaction.Rollback: single steps of the rollback, whose errors the program ignores, succeed.
- IdSets.EveryReviewCanBeAdjudicated: identifiers are truncated digests; a collision of two in one review is outside the model.
- WorkspaceSync.WorkspaceManager.Sync: the two sealed baselines are equal, which `prepare` checks; identifiers of changes are injective, being hashes.
