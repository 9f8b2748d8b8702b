# Verified model of production delivery and its tooling

This project models the parts of the Dashboard repository in which a mistake is hard to see from one
function, and proves what they promise.

**The production activation protocol.** One release and one database move together from "previous" to
"candidate". `ActivationProtocol` is the disk as a state machine whose actions are single durable writes;
`ActivationRuns` holds the safety theorems about whole runs of it; `ProductionHost` is a host on which every
write and every dependency may throw and the process may die; `ActivationRecovery` and `ReleaseActivation`
are the methods of the activation code, each proved to make only allowed writes; `ActivationRestart` says
exactly when recovery can be restarted. On a *calm* host nothing throws except that the releases in
`unready` never become ready, and there the contracts are exact in both directions.

**The delivery operation journal.** `DeliveryLedger` is the operation directory (one in-flight entry, the
receipts) with theorems over whole histories of calls; `DeliveryHost` holds the calls as methods over
mutable files; `DeliveryOwnership` is the two-file preparation and clearing; `DeliveryExecutor` is the
executor run with its catch block, which recovers, activates and restarts releases on the same
`ProductionHost` the activation code runs on.

**Scenarios.** `ActivationScenarios`, `DeliveryScenarios` and `LargestRelease` hold the concrete runs and
inputs at which the code does less than it is meant to.

**Algorithms.** Count-capped longest-first batching (`TestBatching`), artifact retention
(`ManagedTree`, `ArtifactRetention`), snapshot retention (`SnapshotIdentity`, `SnapshotRetention`, `SnapshotStore`), the
dead-owner process lock (`ExclusiveProcessLock`), capacity admission (`ArtifactDirectories`,
`ArtifactCapacity`, `DeliveredObjects`), the chunked output inspector (`TestOutputPolicy`), the bounded-concurrency map
(`BoundedConcurrency`) and the startup-graph worklist (`StartupGraph`).

Identities (commit hashes, UUIDs) are read as the numbers they spell; `SnapshotIdentity` relates the text
of a UUID to its number. A step that may throw is a nondeterministic choice; clocks, the contents of files,
services, probes and the network are parameters or such choices.

## What the code does not do

Proving the properties brought out cases in which the code does less than its documentation says. The model
keeps the code's behaviour. For each there is a concrete input or run, and a lemma or contract that says for
all inputs when it happens.

- `activateRelease` that resumes a committed candidate whose services no longer become ready rolls back and
  returns the *previous* record as a normal result. Exactly when: `ReleaseActivation.ActivateRelease`; a run:
  `ActivationScenarios.ResumedRollbackReturnsPrevious`.
- Recovery cannot finish once the live entry was replaced and the source of a rollback is gone: the candidate
  directory of a database that existed before, or the workspace of one that did not. A rollback discards that
  source before it clears the journal, so an interruption in between is final; a first activation that is
  turned back after its own discard is stuck too. Exactly when: `ActivationRestart.WhenRecoveryIsImpossible`;
  runs: `ActivationScenarios.InterruptedDiscardIsStuck`,
  `ActivationScenarios.TurnedBackFirstActivationIsStuck`.
- The forward half of recovery discards the workspace, one directory at a time, before it clears the journal;
  if the committed candidate does not come up again in between there is nothing to roll back with. Exactly
  when: `ActivationRestart.DiscardedCommitNeedsItsCandidate`; runs:
  `ActivationScenarios.HalfDiscardedCommitIsStuck`, `ActivationScenarios.DiscardedCommitIsStuck`.
- When the catch block of `activateRelease` finds no journal but cannot read the activation record, it puts
  the previous release back although the candidate is committed, and that release runs on the candidate's
  database. Exactly when: the outcome clauses of `ReleaseActivation.ReconcileFailure` and
  `ReleaseActivation.ActivateRelease`; a run: `ActivationScenarios.UnreadableRecordRestartsThePrevious`.
- The executor's catch block restarts whatever the activation record names without looking at the journal. A
  truthful success can stand beside the old release's database and be taken back by the next recovery
  (`DeliveryScenarios.SuccessBesideTheOldDatabase`, `DeliveryScenarios.SuccessIsTakenBack`), a truthful
  failure beside the new one's (`DeliveryScenarios.FailureBesideTheNewDatabase`), and writes of the restarted
  release can be dropped by that recovery (`DeliveryScenarios.RestartedWritesAreDropped`). It needs an
  unfinished transition: `DeliveryExecutor.SuccessNamesTheDatabase`,
  `DeliveryExecutor.FailureNamesTheDatabase`, `DeliveryScenarios.SuccessStands`. A success that was not caught
  leaves none (`DeliveryExecutor.Execute`).
- The hand-off to a target's executor publishes the release before it installs the runtime. A death in
  between leaves a release without its runtime, and then no activation returns and no admission passes, of
  whatever release, until that runtime is installed: `ReleaseActivation.RetainArtifacts`,
  `ReleaseActivation.ActivateRelease`, `DeliveryScenarios.OrphanIsReached`,
  `DeliveryScenarios.CompletenessMoves`.
- Passing back records that the operation calls returned does not exclude a conflict: after receipt
  retention an identity can be created again, and a completion with the first incarnation's record then
  conflicts. Exactly when: `DeliveryLedger.CompletionIsSafeExactly`; a history:
  `DeliveryLedger.StaleCompletionConflicts`.
- Receipt retention protects the current, previous and in-flight transitions but not the executor owner's;
  dropping the receipt of an owner whose operation left the in-flight entry strands the owner for good.
  Exactly when: `DeliveryOwnership.RetentionIsSafeExactly`, `DeliveryOwnership.StrandedIsFinal`; a case:
  `DeliveryOwnership.SettledIsReached`, `DeliveryOwnership.RetentionStrandsAnOwner`.
- The lock is exclusive only if the last comparison of a stale lock and its unlink are one step, and only if
  a creator writes its identity within the grace period (`ExclusiveProcessLock.SplitRemovalBreaksExclusion`,
  `ExclusiveProcessLock.SlowCreatorBreaksExclusion`).
- The executor's catch block decides the operation's next owner by what it holds in memory. If an owner write
  threw after it was durable, the file is left as it is, and if the activation record could not be read the
  current release becomes the owner even beside a recorded target. Exactly when: the owner clauses of
  `DeliveryExecutor.Recover`.
- The object limit of capacity admission counts the 4096 manifest artifacts of a tree but not its two
  identity files, so the largest admissible trees are refused whatever the free space when the candidate copy
  is on the same device. Exactly when: `ArtifactCapacity.CombinedObjectLimit`; trees:
  `LargestRelease.LargestIsRefused`. This is about the admission function. A tree unpacked from an
  archive that lists its files and directories never meets it, because the listing of a published archive is
  already capped at 4608 entries, the same bound (`LargestRelease.ArchivedTreesPass`).
- The bounded-concurrency map with a limit of zero returns holes instead of results
  (`BoundedConcurrency.NoWorkersMapNothing`); the repository calls it with four.

## Model

| member | source | states |
|---|---|---|
| ActivationProtocol.StepKeepsInvariant | scripts/delivery/productionReleaseActivation.ts:524-893 | every durable write of activation, rollback and retention keeps: paired when idle, journal, record, snapshot and live database mutually consistent otherwise |
| ActivationProtocol.JournalStepKeepsInvariant | scripts/delivery/productionActivationJournal.ts:259-398 | creating, advancing and clearing the journal under their guards keeps the invariant |
| ActivationProtocol.RecordStepKeepsInvariant | scripts/delivery/productionActivationState.ts:385-500 | the forward commit and the backward restore of the record keep the invariant |
| ActivationProtocol.SnapshotStepKeepsInvariant | scripts/delivery/databaseSnapshotRetention.ts:376-445 | taking the transition's snapshot and removing unreferenced ones keep the invariant |
| ActivationProtocol.WorkspaceStepKeepsInvariant | scripts/delivery/databaseTransitionFilesystem.ts:590-741 | building and discarding the private workspace keeps the invariant |
| ActivationProtocol.DatabaseStepKeepsInvariant | scripts/delivery/databaseTransitionFilesystem.ts:835-1060 | promoting the candidate and restoring the previous database keep the invariant |
| ActivationProtocol.ArtifactStepKeepsInvariant | scripts/delivery/productionReleaseActivation.ts:240-298 | publishing, and removing what the record does not refer to while idle, keeps current and previous artifacts published |
| ActivationProtocol.StartAndStopKeepInvariant | scripts/delivery/productionReleaseActivation.ts:499-511 | starting any release at any time, as the executor's restart may, and stopping keep the invariant |
| ActivationProtocol.ServiceStepKeepsInvariant | scripts/delivery/productionReleaseActivation.ts:775-785 | service writes and passed checks keep the invariant |
| ActivationRuns.RunKeepsInvariant | scripts/delivery/productionReleaseActivation.ts:524-893 | in every state of every run without a journal the live database and the activation record name the same release |
| ActivationRuns.RecordChangesOnlyUnderItsJournal | scripts/delivery/productionReleaseActivation.ts:422-459 | the record changes only to the journal's candidate in phase database-promoted or back to its predecessor in phase rollback-required |
| ActivationRuns.JournalCreation | scripts/delivery/productionActivationJournal.ts:259-276 | a present journal has one creation, after which it was never absent and kept its identity |
| ActivationRuns.ReadinessAfterCreation | scripts/delivery/productionReleaseActivation.ts:773-785 | a recorded readiness was observed after the creation of its transition |
| ActivationRuns.SmokeAfterCreation | scripts/delivery/productionReleaseActivation.ts:773-785 | a recorded smoke test passed after the creation of its transition |
| ActivationRuns.CommitFollowsItsChecks | scripts/delivery/productionReleaseActivation.ts:773-798 | a candidate becomes authoritative only under a durable database-promoted journal of its transition, after that transition's readiness and smoke |
| ActivationRuns.AbandonedStays | scripts/delivery/productionActivationJournal.ts:348-369 | an abandoned transition's candidate is neither the record nor the predecessor of a later journal, at any later point |
| ActivationRuns.RollbackIsFinal | scripts/delivery/productionReleaseActivation.ts:592-615 | once rollback-required is durable no later journal-free state has that candidate authoritative |
| ActivationRuns.JournalStays | scripts/delivery/productionActivationJournal.ts:286-369 | past its first phase a journal keeps identity, recorded database and predecessor until it is cleared |
| ActivationRuns.PublishedStays | scripts/delivery/productionReleaseActivation.ts:277-298 | no published release or runtime disappears while a journal exists |
| ActivationRuns.RestoreSourcesSurvive | scripts/delivery/productionReleaseActivation.ts:216-298 | while a journal that needs them exists its snapshot keeps its data and the previous release stays published |
| ActivationRuns.ServiceWritesCommute | scripts/delivery/productionReleaseActivation.ts:805-817 | a service write before or after a discard, a clear, a collection or a check makes no difference, so method contracts need service writes only at the ends of such stretches |
| ActivationRuns.CommittedMeansItsRecord | scripts/delivery/productionReleaseActivation.ts:592-616 | under a journal the record is either the one it commits or its predecessor |
| ActivationRuns.StepKeepsData | scripts/delivery/productionReleaseActivation.ts:524-893 | only services make data: any other write leaves the live contents as they are or puts those of a snapshot of the same release there |
| ActivationRestart.ReversibleRecovers | scripts/delivery/productionReleaseActivation.ts:524-581 | a reversible state recovers to the journal's predecessor if the old release starts |
| ActivationRestart.ReversibleStays | scripts/delivery/productionReleaseActivation.ts:524-576 | no write before the discard makes a reversible rollback irreversible |
| ActivationRestart.TargetStays | scripts/delivery/productionReleaseActivation.ts:524-581 | what is rolled back to never changes while the journal lives |
| ActivationRestart.UncommittedIsReversible | scripts/delivery/productionReleaseActivation.ts:547-557 | in phase service-stop-requested or with no earlier database every uncommitted state is reversible |
| ActivationRestart.InterruptedRollbackIsReversible | scripts/delivery/productionReleaseActivation.ts:524-576 | any interruption of a rollback before the discard leaves it reversible with the same target |
| ActivationRestart.InterruptedRollbackRestarts | scripts/delivery/productionReleaseActivation.ts:524-581 | recovery from any interrupted state can finish and ends at the record recovery from the start would end at |
| ActivationRestart.StillThere | scripts/delivery/productionReleaseActivation.ts:524-581 | after any stretch that began no discard the recorded database is unchanged and recovery can still finish at the predecessor |
| ActivationRestart.RecoverAgain | scripts/delivery/productionReleaseActivation.ts:524-616 | recoveries that throw or die anywhere before a discard, then one undisturbed, leave the record, services, live database and cleared journal of a single undisturbed one |
| ActivationRestart.DiscardWindowIsFailClosed | scripts/delivery/productionReleaseActivation.ts:577-579 | a concrete consistent disk inside the discard window from which no recovery finishes |
| ActivationRestart.WhenRecoveryIsImpossible | scripts/delivery/databaseTransitionFilesystem.ts:1179-1193 | a transition to be rolled back, with a present or an absent previous database, recovers exactly if the old release starts and the live entry was never replaced or the source remains |
| ActivationRestart.DiscardedCommitNeedsItsCandidate | scripts/delivery/productionReleaseActivation.ts:592-615 | every committed transition recovers exactly if its candidate comes up, or the old release starts and the source remains |
| ActivationRestart.UnrecordedRecovers | scripts/delivery/productionReleaseActivation.ts:547-557 | before a database is recorded recovery needs only the old release to start |
| ProductionHost.Host.Perform | scripts/delivery/productionActivationJournal.ts:187-226 | one durable write that may throw or die before or after it happened |
| ProductionHost.Host.MarkJournal | scripts/delivery/productionActivationJournal.ts:286-369 | compare-and-swap to the next phase: old journal or next journal, next on return |
| ProductionHost.Host.ClearJournal | scripts/delivery/productionActivationJournal.ts:378-398 | only the exact expected journal is removed |
| ProductionHost.Host.DiscardWorkspace | scripts/delivery/databaseTransitionFilesystem.ts:590-667 | removes files, candidate directory and root in that order and touches nothing else |
| ProductionHost.Host.CopySnapshot | scripts/delivery/databaseTransitionFilesystem.ts:404-515 | the candidate gets a fresh file holding the verified snapshot, or the copy throws and leaves anything in it |
| ProductionHost.Host.MaintainCandidate | scripts/delivery/productionReleaseActivation.ts:475-483 | a finished migration leaves the candidate with the artifact's schema |
| ActivationRecovery.InspectRecovery | scripts/delivery/databaseTransitionFilesystem.ts:1153-1212 | not promoted exactly if the live entry still has the recorded identity; throws exactly if neither that nor the workspace is there |
| ActivationRecovery.RestorePreviousDatabase | scripts/delivery/productionReleaseActivation.ts:461-486 | restores the recorded data, or absence; on a calm host exactly when the source is still there |
| ActivationRecovery.RestorePreviousProcessState | scripts/delivery/productionReleaseActivation.ts:499-511 | starts the previous release and requires its readiness |
| ActivationRecovery.ReconcileRollback | scripts/delivery/productionReleaseActivation.ts:439-459 | the record afterwards is the old or the previous one, and the previous one on return even if the write threw after happening |
| ActivationRecovery.RestoreRecorded | scripts/delivery/productionReleaseActivation.ts:558-576 | puts back database lineage and record; on a calm host exactly when identity or source remain |
| ActivationRecovery.FinishRollback | scripts/delivery/productionReleaseActivation.ts:577-579 | discard, restart and clear leave record and data alone |
| ActivationRecovery.RollbackTransition | scripts/delivery/productionReleaseActivation.ts:524-581 | a return has neither journal nor workspace, the predecessor's record and data, and the predecessor running; on a calm host it returns exactly when rollback is possible |
| ActivationRecovery.SettleCommitted | scripts/delivery/productionReleaseActivation.ts:605-612 | ends with neither journal nor workspace and touches neither the record nor the services |
| ActivationRecovery.BuildRollbackCandidate | scripts/delivery/productionReleaseActivation.ts:474-484 | the rollback candidate holds exactly the recorded snapshot, on a calm host exactly when its directory is still there |
| ActivationRecovery.TurnBack | scripts/delivery/productionReleaseActivation.ts:601-604 | rollback-required is durable before the rollback of a committed candidate begins |
| ActivationRecovery.SettleOrRollBack | scripts/delivery/productionReleaseActivation.ts:592-613 | a committed candidate is kept exactly if it comes up; otherwise its predecessor and the recorded data come back |
| ActivationRecovery.RecoverExistingTransition | scripts/delivery/productionReleaseActivation.ts:583-615 | chooses forward or backward from disk alone; on a calm host returns exactly when recovery is possible, with the recovery target as record and the recorded data; what was live stays live where nothing was promoted or the candidate is kept |
| ActivationScenarios.ResumedRollbackReturnsPrevious | scripts/delivery/productionReleaseActivation.ts:657-672 | a run to a committed transition whose resumed activation has the previous record to return |
| ActivationScenarios.HalfDiscardedCommitIsStuck | scripts/delivery/databaseTransitionFilesystem.ts:590-667 | a run that dies between the two directory removals, from which only the candidate can be recovered |
| ActivationScenarios.DiscardedCommitIsStuck | scripts/delivery/productionReleaseActivation.ts:605-612 | the same between the discard and the clear |
| ActivationScenarios.UnreadableRecordRestartsThePrevious | scripts/delivery/productionReleaseActivation.ts:818-887 | a run through commit, clear, a throwing collector and an unreadable record to the old release running on the new database |
| ActivationScenarios.InterruptedDiscardIsStuck | scripts/delivery/productionReleaseActivation.ts:577-579 | a run into a rollback's discard from which no recovery finishes, whatever starts |
| ActivationScenarios.TurnedBackFirstActivationIsStuck | scripts/delivery/productionReleaseActivation.ts:600-604 | a run of a first activation turned back after its discard, from which no recovery finishes |
| ReleaseActivation.DistinctReleases | scripts/delivery/productionReleaseActivation.ts:264-275 | keeps the first reference to each release, so no release is named twice and none is lost |
| ReleaseActivation.FirstReferencesAreKept | scripts/delivery/productionReleaseActivation.ts:264-275 | what is kept of several references to one release is the first |
| ReleaseActivation.ReferencesCoverRecord | scripts/delivery/productionReleaseActivation.ts:240-275 | the references cover current, previous and candidate releases, and nothing else |
| ReleaseActivation.RetainSnapshots | scripts/delivery/productionReleaseActivation.ts:227-238 | with no journal, leaves exactly what snapshot retention keeps beside the record's references at some time |
| ReleaseActivation.RetainArtifacts | scripts/delivery/productionReleaseActivation.ts:277-298 | changes nothing unless all references are published and no release lacks its runtime; a return leaves exactly the referenced releases and runtimes |
| ReleaseActivation.RuntimesAreReferenced | scripts/delivery/productionReleaseActivation.ts:240-275 | references that cover the record's releases cover its runtimes |
| ReleaseActivation.SnapshotPrevious | scripts/delivery/productionReleaseActivation.ts:729-744 | on success the journal may be marked prepared with the identity the stopped database has after its snapshot |
| ReleaseActivation.StopAndSnapshot | scripts/delivery/productionReleaseActivation.ts:716-745 | success leaves a prepared journal, stopped services and the previous database untouched |
| ReleaseActivation.BuildCandidate | scripts/delivery/productionReleaseActivation.ts:746-767 | success leaves the candidate's schema over the data of the chosen snapshot, or else of the recorded one |
| ReleaseActivation.PromoteCandidate | scripts/delivery/productionReleaseActivation.ts:746-774 | success leaves the candidate live under a database-promoted journal of the same transition, over that same data |
| ReleaseActivation.VerifyCandidate | scripts/delivery/productionReleaseActivation.ts:775-789 | success has both checks passed; on a calm host failure has rollback-required durable |
| ReleaseActivation.ReconcileCommit | scripts/delivery/productionReleaseActivation.ts:422-437 | the record afterwards is the old or the next one, and the next one on return |
| ReleaseActivation.CommitCandidate | scripts/delivery/productionReleaseActivation.ts:775-804 | commits exactly after the checks; on a calm host succeeds exactly if the candidate is ready |
| ReleaseActivation.FinishCutover | scripts/delivery/productionReleaseActivation.ts:805-817 | the journal is cleared only after the discard, both collectors run only after that, and the services keep running; success leaves only the current and previous releases with their runtimes and what snapshot retention keeps |
| ReleaseActivation.Cutover | scripts/delivery/productionReleaseActivation.ts:712-817 | on a calm host commits exactly if the candidate is ready and otherwise leaves a reversible rollback of the original state; a commit carries the data of the live database, or of the chosen snapshot, to the candidate |
| ReleaseActivation.CommitPromoted | scripts/delivery/productionReleaseActivation.ts:775-817 | checks, commit and clean-up of a promoted candidate: on a calm host exactly if it comes up, with its data as promoted, and otherwise rollback-required is durable |
| ReleaseActivation.ReconcileFailure | scripts/delivery/productionReleaseActivation.ts:818-893 | a committed candidate that does not run implies that the catch block's read of the record threw, and putting the previous release back beside a durable commit leaves exactly that; otherwise it returns the durable candidate record or, on a calm host, restores record and data |
| ReleaseActivation.RecoverInCatch | scripts/delivery/productionReleaseActivation.ts:826-846 | recovery in the catch block never separates a committed candidate from its services |
| ReleaseActivation.PutBackPrevious | scripts/delivery/productionReleaseActivation.ts:860-893 | moves neither record nor journal, and if it gets to the restart the previous release is what runs |
| ReleaseActivation.CommitAndSettle | scripts/delivery/productionReleaseActivation.ts:790-804 | after both checks, a return has the commit durable under its journal and the services unchanged |
| ReleaseActivation.AdmitCandidate | scripts/delivery/productionReleaseActivation.ts:673-685 | the candidate verifies first and survives the collection around it; asked for the current release it leaves nothing but what the record refers to |
| ReleaseActivation.RetainAroundCandidate | scripts/delivery/productionReleaseActivation.ts:674-685 | exactly the record's releases and the candidate are left |
| ReleaseActivation.AdoptCommit | scripts/delivery/productionReleaseActivation.ts:847-859 | adopting a durable commit leaves record and journal alone |
| ReleaseActivation.ActivateFromIdle | scripts/delivery/productionReleaseActivation.ts:666-893 | from an idle disk a return names the candidate, and on a calm host it is all or nothing, also onto a retained snapshot; asked for the current release it returns exactly if that comes up, with the data unchanged |
| ReleaseActivation.CutoverFromIdle | scripts/delivery/productionReleaseActivation.ts:711-893 | a return is the durable next record of this transition |
| ReleaseActivation.RolledBackRecovers | scripts/delivery/productionReleaseActivation.ts:826-846 | what a failed calm cutover leaves is recovered by rollback whenever the old release starts |
| ReleaseActivation.ActivateRelease | scripts/delivery/productionReleaseActivation.ts:649-894 | a normal return has no journal, equals the durable record and leaves that record's release running, and needs every release to have its runtime; it names the candidate except in the resumed rollback; the candidate is left authoritative without running only through an unreadable record in the catch block, and always when that put the previous release back; on a calm host all or nothing, after whatever recovery of an earlier transition was possible: success carries the live data or the chosen snapshot's to the candidate, failure leaves record and data; a return leaves the record's releases and runtimes alone and at most five snapshots |
| ReleaseActivation.RecoverPending | scripts/delivery/productionReleaseActivation.ts:657-666 | recovers first and tells whether the commit of this very candidate is resumed; on a calm host with the record and the data recovery decides on |
| ReleaseActivation.Retain | scripts/delivery/productionReleaseActivation.ts:808-816 | both collectors: a return leaves exactly the record's releases with their runtimes and what snapshot retention keeps at some time, at most five |
| ReleaseActivation.PrepareArtifactAdmission | scripts/delivery/productionReleaseActivation.ts:626-647 | recovery comes before collection; exactly the record's releases and the additional ones are left; on a calm host it passes whenever recovery is possible and all of them verify |
| ReleaseActivation.RetainBesides | scripts/delivery/productionReleaseActivation.ts:277-298 | the collection around the record and additional references |
| ReleaseActivation.Operate | scripts/delivery/productionReleaseActivation.ts:626-894 | over any sequence of calls with throws and deaths anywhere, every journal-free state on the way is paired |
| DeliveryRecords.CurrentAndTargetExclude | src/shared/deliveryProductionOperation.ts:270-329 | one activation never matches both the current and the target pair of a consistent capsule |
| DeliveryRecords.CutoverCommitsTheTarget | scripts/delivery/productionDeliveryExecutor.ts:477-503 | from the current pair a cutover commits the target pair exactly if it commits the target |
| DeliveryRecords.PairsNameOneRecord | scripts/delivery/productionDeliveryExecutor.ts:477-503 | each pair names one record up to compatibility epochs |
| DeliveryRecords.TargetBecomesCurrent | scripts/delivery/productionDeliveryExecutor.ts:477-503 | the target pair of one operation is the current pair of one that starts from it |
| DeliveryLedger.SoundMeansNoConflict | scripts/delivery/productionDeliveryOperationFilesystem.ts:504-552 | soundness of the directory is exactly that no inspection reports conflict |
| DeliveryLedger.InspectionSaysWhatIsThere | scripts/delivery/productionDeliveryOperationFilesystem.ts:504-552 | in a sound directory: the receipt if there is one, else the entry in flight, else missing |
| DeliveryLedger.NewOperationRuns | scripts/delivery/productionDeliveryOperationFilesystem.ts:713-743 | a new operation in an idle directory can be created, completed and cleared, and leaves just its receipt |
| DeliveryLedger.OperationAdvances | scripts/delivery/productionDeliveryOperationFilesystem.ts:665-702 | without a receipt every phase but the last can advance to the next |
| DeliveryLedger.CallKeepsSound | scripts/delivery/productionDeliveryOperationFilesystem.ts:624-887 | whatever a call leaves, also when it throws or dies, is sound |
| DeliveryLedger.CompletionIsSafeExactly | scripts/delivery/productionDeliveryOperationFilesystem.ts:713-743 | a completion keeps soundness if and only if it names the incarnation in flight |
| DeliveryLedger.HistoryHasNoConflict | scripts/delivery/productionDeliveryOperationFilesystem.ts:504-552 | in every state of a disciplined history no inspection reports conflict |
| DeliveryLedger.CallMovesForward | scripts/delivery/productionDeliveryOperationFilesystem.ts:665-743 | one call moves the in-flight phase and time only forward and never alters its capsule |
| DeliveryLedger.InFlightMovesForward | scripts/delivery/productionDeliveryOperationFilesystem.ts:665-743 | the same over any stretch of a history in which something is in flight |
| DeliveryLedger.OperationsEnterOneByOne | scripts/delivery/productionDeliveryOperationFilesystem.ts:624-654 | a new operation enters only an empty slot, by creation, and without an earlier receipt |
| DeliveryLedger.CallKeepsReceipt | scripts/delivery/productionDeliveryOperationFilesystem.ts:445-488 | no call removes or replaces the receipt of the operation in flight |
| DeliveryLedger.ReceiptIsFinal | scripts/delivery/productionDeliveryOperationFilesystem.ts:713-792 | a stored receipt stays, and the in-flight entry can only stay, become it or be cleared |
| DeliveryLedger.ReceiptsLeaveOnlyByRetention | scripts/delivery/productionDeliveryOperationFilesystem.ts:845-887 | a receipt leaves only through a retention that does not protect it |
| DeliveryLedger.RetentionKeepsExactly | scripts/delivery/productionDeliveryOperationFilesystem.ts:845-887 | a retention keeps exactly the receipts of the current, the previous and the in-flight transition |
| DeliveryLedger.StaleCompletionConflicts | scripts/delivery/productionDeliveryOperationFilesystem.ts:713-743 | a concrete history of returned records that ends in a conflict |
| DeliveryHost.Host.ReplaceInFlight | scripts/delivery/productionDeliveryOperationFilesystem.ts:404-443 | compare-and-swap that also accepts an entry already equal to the next one |
| DeliveryHost.Host.CreateOperation | scripts/delivery/productionDeliveryOperationFilesystem.ts:624-654 | returns exactly when accepted, with the intent durable |
| DeliveryHost.Host.AdvanceOperation | scripts/delivery/productionDeliveryOperationFilesystem.ts:665-702 | returns exactly for an adjacent phase of the in-flight record without a receipt |
| DeliveryHost.Host.StoreReceipt | scripts/delivery/productionDeliveryOperationFilesystem.ts:445-488 | an existing receipt is accepted only if equal and never replaced |
| DeliveryHost.Host.CompleteOperation | scripts/delivery/productionDeliveryOperationFilesystem.ts:713-743 | the receipt is stored before the in-flight entry is replaced; nothing else can be left behind |
| DeliveryHost.Host.ClearOperation | scripts/delivery/productionDeliveryOperationFilesystem.ts:752-792 | removes only the in-flight entry of exactly this receipt |
| DeliveryHost.Host.RetainReceipts | scripts/delivery/productionDeliveryOperationFilesystem.ts:845-887 | verifies every entry first and then removes exactly the unprotected receipts |
| DeliveryHost.Host.CommitOwner | scripts/delivery/productionDeliveryExecutorOwnerState.ts:301-336 | compare-and-swap of the owner that never changes its transition |
| DeliveryHost.Host.ClearOwner | scripts/delivery/productionDeliveryExecutorOwnerState.ts:342-371 | removes only the exact expected owner |
| DeliveryOwnership.PrepareOperation | scripts/delivery/productionDeliveryExecutor.ts:1305-1365 | returns exactly when accepted, and leaves nothing, the intent, or intent and owner |
| DeliveryOwnership.PrepareReplays | scripts/delivery/productionDeliveryExecutor.ts:1305-1365 | whatever an interrupted preparation left, the same call is accepted and reaches the uninterrupted end |
| DeliveryOwnership.PrepareKeepsConsistent | scripts/delivery/productionDeliveryExecutor.ts:1305-1365 | preparation keeps directory and owner linked and never changes an existing owner |
| DeliveryOwnership.OwnerFencesPreparation | scripts/delivery/productionDeliveryExecutor.ts:1320-1350 | while an owner remains only its own operation can be prepared |
| DeliveryOwnership.ClearMarker | scripts/delivery/productionDeliveryExecutor.ts:1426-1452 | returns exactly when receipt, entry and owner belong together, and leaves only the documented states |
| DeliveryOwnership.ClearReplays | scripts/delivery/productionDeliveryExecutor.ts:1426-1452 | whatever an interrupted clear left, the same call is accepted and reaches the uninterrupted end |
| DeliveryOwnership.ClearKeepsConsistent | scripts/delivery/productionDeliveryExecutor.ts:1426-1452 | clearing keeps directory and owner linked at every step |
| DeliveryOwnership.OwnerLeavesOnlyByItsClear | scripts/delivery/productionDeliveryExecutor.ts:1438-1449 | the owner leaves only through the clear of its own transition, with the receipt stored |
| DeliveryOwnership.RetentionKeepsConsistent | scripts/delivery/productionDeliveryOperationFilesystem.ts:845-887 | a retention that protects the owner's receipt keeps the link |
| DeliveryOwnership.RetentionIsSafeExactly | scripts/delivery/productionDeliveryOperationFilesystem.ts:845-887 | an accepted retention keeps the link if and only if it protects the owner's transition |
| DeliveryOwnership.StrandedIsFinal | scripts/delivery/productionDeliveryExecutor.ts:1348-1350 | an owner without its receipt blocks preparation and clearing for good |
| DeliveryOwnership.SettledIsReached | scripts/delivery/productionDeliveryExecutor.ts:1305-1365 | preparing and completing one operation leads to the case below |
| DeliveryOwnership.RetentionStrandsAnOwner | scripts/delivery/productionDeliveryOperationFilesystem.ts:845-887 | a concrete retention after an interrupted clear that strands the owner |
| DeliveryExecutor.AdvanceTo | scripts/delivery/productionDeliveryExecutor.ts:747-768 | moves through adjacent phases to the target, keeps tracking the entry when it throws, and never goes back |
| DeliveryExecutor.ReportProgress | scripts/delivery/productionDeliveryExecutor.ts:1123-1166 | progress advances the journal and hands ownership over only after smoke |
| DeliveryExecutor.Activate | scripts/delivery/productionDeliveryExecutor.ts:1168-1177 | runs the real activation beside its progress reports: a return has reported smoke, handed ownership to the target and left the durable target record without a journal; undisturbed it returns exactly if the target comes up, and otherwise the record is unchanged |
| DeliveryExecutor.RunActivation | scripts/delivery/productionDeliveryExecutor.ts:770-780 | the activation of the operation's target under the operation's transition, in the executor's process; undisturbed it is all or nothing |
| DeliveryExecutor.AdmitArtifacts | scripts/delivery/productionDeliveryExecutor.ts:1043-1050 | admission recovers before it collects, leaves no journal, and passes only if every release had its runtime; with no transition to recover it passes if the target is there too, and keeps it |
| DeliveryExecutor.PublishTarget | scripts/delivery/productionDeliveryExecutor.ts:936-1012 | publishes the release and then installs the runtime, two durable steps; refuses a release published under another runtime, and undisturbed nothing else |
| DeliveryExecutor.RestartNormalRuntime | scripts/delivery/productionDeliveryExecutor.ts:832-847 | a return has the named release running; nothing but the services and their writes moves |
| DeliveryExecutor.CompleteWith | scripts/delivery/productionDeliveryOperationFilesystem.ts:713-743 | at most this one receipt is stored, and only if consistent and truthful |
| DeliveryExecutor.CompleteAfterNormalRuntimeReady | scripts/delivery/productionDeliveryExecutor.ts:849-864 | stores success only if the durable activation is the target pair and the target runs |
| DeliveryExecutor.TerminalFailure | scripts/delivery/productionDeliveryExecutor.ts:782-815 | never success; on a calm host "failed" exactly if the durable activation is the current pair |
| DeliveryExecutor.TransferOwner | scripts/delivery/productionDeliveryExecutor.ts:922-1032 | hands off only with release and runtime published, the target owning the operation and the entry in the transferred phase; undisturbed it hands off exactly if the target can be published; stores no receipt |
| DeliveryExecutor.FinishActiveTarget | scripts/delivery/productionDeliveryExecutor.ts:1053-1083 | finishes an active target only from a phase after smoke; on calm hosts exactly then and if the target comes up |
| DeliveryExecutor.VerifyActive | scripts/delivery/productionDeliveryExecutor.ts:1060-1066 | on calm hosts passes exactly if the target is published and comes up |
| DeliveryExecutor.CutOver | scripts/delivery/productionDeliveryExecutor.ts:1084-1188 | every finish is a truthful success beside a running target and no journal; a raise leaves the operation tracked or settled; undisturbed, with an admitted target, the record is the target's exactly if it comes up |
| DeliveryExecutor.Drive | scripts/delivery/productionDeliveryExecutor.ts:921-1188 | the whole try block over the real admission and activation, with the same guarantees for finishing and handing off |
| DeliveryExecutor.Recover | scripts/delivery/productionDeliveryExecutor.ts:1189-1236 | the catch block stores at most one receipt; if the recorded release comes up, on calm hosts the outcome is exactly what the durable activation says; afterwards the recorded target owns the operation, or else the current release, unless the record could not be read or the owner file was not the held one |
| DeliveryExecutor.RestartAndReport | scripts/delivery/productionDeliveryExecutor.ts:1212-1235 | the release the record names runs before its receipt is stored |
| DeliveryExecutor.StartNormalRuntime | scripts/delivery/productionDeliveryExecutor.ts:1178-1187 | the last phase and a success beside the running target |
| DeliveryExecutor.DriveOrRecover | scripts/delivery/productionDeliveryExecutor.ts:921-1236 | an undisturbed run with an admitted target succeeds exactly if the target comes up and fails otherwise, and the catch block is entered exactly for that failure or an entry already past smoke |
| DeliveryExecutor.TakeUp | scripts/delivery/productionDeliveryExecutor.ts:892-919 | initializes or checks the owner and confirms the executor before anything else |
| DeliveryExecutor.Execute | scripts/delivery/productionDeliveryExecutor.ts:874-1237 | on every path at most one receipt, true of the real activation record; a success leaves its target running, and one not caught leaves no journal and the target's database; an operation with a receipt is only read; on calm hosts the outcome is what the record says, and with an admitted target it is success exactly if the target comes up, failure with the old record otherwise; a success carries the data over; a hand-off leaves the target published and owning, and on calm hosts happens exactly if the target can be published |
| DeliveryExecutor.RunExecutor | scripts/delivery/productionDeliveryExecutor.ts:1238-1300 | a deploy that nothing disturbs goes through hand-off and the target's own executor to a success exactly if the target comes up, with the data carried over |
| DeliveryExecutor.ProvidedIsAdmitted | scripts/delivery/productionDeliveryExecutor.ts:936-1004 | publishing what was missing is all that such a deploy waited for |
| DeliveryExecutor.SuccessNamesTheDatabase | scripts/delivery/productionDeliveryExecutor.ts:489-503 | a recorded target has its database unless a rollback or a later transition is underway |
| DeliveryExecutor.FailureNamesTheDatabase | scripts/delivery/productionDeliveryExecutor.ts:477-487 | a recorded current pair has its database unless a transition past its snapshot is underway |
| DeliveryExecutor.SwornAfterRun | scripts/delivery/productionDeliveryExecutor.ts:782-864 | a run adds at most one receipt, true of the state of the production run it was stored beside |
| DeliveryExecutor.Deliver | scripts/delivery/productionDeliveryExecutor.ts:874-1452 | over any sequence of deliveries and activations with throws and deaths anywhere, no conflict arises, every journal-free state is paired, and every receipt is true of the state of the run in which it was stored |
| DeliveryScenarios.SuccessStands | scripts/delivery/productionDeliveryExecutor.ts:489-503 | a success stored with no journal left stays true, with the target's database live, until another transition begins |
| DeliveryScenarios.SuccessBesideTheOldDatabase | scripts/delivery/productionDeliveryExecutor.ts:1212-1227 | a run to a truthful success with the target running on the old release's database |
| DeliveryScenarios.SuccessIsTakenBack | scripts/delivery/productionDeliveryExecutor.ts:1212-1227 | the next recovery makes that success untrue |
| DeliveryScenarios.FailureBesideTheNewDatabase | scripts/delivery/productionDeliveryExecutor.ts:1212-1235 | a run to a truthful failure with the old release running on the target's database |
| DeliveryScenarios.RestartedWritesAreDropped | scripts/delivery/productionDeliveryExecutor.ts:1212-1235 | a run in which the restarted release's write is replaced by the snapshot |
| DeliveryScenarios.OrphanIsReached | scripts/delivery/productionDeliveryExecutor.ts:936-1004 | a run that dies between publication and installation |
| DeliveryScenarios.CompletenessMoves | scripts/delivery/productionArtifactRetention.ts:739-747 | only an installation or a removal of the release ends that state, and only a publication or a runtime removal begins it |
| TestBatching.RepeatedPaths | scripts/testBatching.ts:57-65 | exactly the paths that occur twice |
| TestBatching.InventoryIsExact | scripts/testBatching.ts:67-98 | accepts exactly duplicate-free permutations |
| TestBatching.LongestFirst | scripts/testBatching.ts:344-348 | the sort is a permutation |
| TestBatching.LongestFirstIsOrdered | scripts/testBatching.ts:344-348 | longest first, ties by path |
| TestBatching.Target | scripts/testBatching.ts:350-362 | the chosen batch is not full, no non-full batch is shorter or equally long with fewer files, and it is the first such |
| TestBatching.FindTarget | scripts/testBatching.ts:353-362 | the loop over candidates finds that batch |
| TestBatching.NonFullBatchExists | scripts/testBatching.ts:349-353 | while tests remain a non-full batch exists |
| TestBatching.PlaceKeepsDominated | scripts/testBatching.ts:349-371 | one placement keeps every pair of batches comparable: a prefix within one test, then no longer at each index |
| TestBatching.DominatedTotals | scripts/testBatching.ts:349-371 | comparable batches differ by at most the longest test |
| TestBatching.SpreadIsAtMostOneTest | scripts/testBatching.ts:335-371 | the largest batch total exceeds the smallest by at most the longest single test |
| TestBatching.PlanKeepsContents | scripts/testBatching.ts:317-384 | the plan is a permutation of the inventory and its totals add up |
| TestBatching.PlanHasNoEmptyBatch | scripts/testBatching.ts:317-384 | no batch is empty |
| TestBatching.PlanIsExactPartition | scripts/testBatching.ts:317-384 | each test in one batch with its own duration of at least one millisecond, no batch above its share rounded up, none empty, totals exact |
| TestBatching.PlanIgnoresInventoryOrder | scripts/testBatching.ts:317-384 | the plan depends on the tests alone, not on the order of the inventory |
| TestBatching.PlaceLongestFirst | scripts/testBatching.ts:335-371 | the loop returns the plan exactly when all its totals are safe integers |
| TestBatching.CreateTimedTestBatchPlan | scripts/testBatching.ts:317-384 | throws exactly on malformed input or an unsafe total; the closing partition assertion never fires |
| TestBatching.RunSequentialTestBatches | scripts/testBatching.ts:392-401 | stops at the first nonzero exit code and returns it |
| ArtifactRetention.StepKeepsVerified | scripts/delivery/productionArtifactRetention.ts:750-790 | every durable step keeps all verified conditions, so every published release has its runtime, and the same end state |
| ArtifactRetention.StepKeepsPairs | scripts/delivery/productionArtifactRetention.ts:764-789 | retiring releases before runtimes keeps every published release paired |
| ArtifactRetention.StepKeepsInventory | scripts/delivery/productionArtifactRetention.ts:295-379 | the inventory bounds survive every step |
| ManagedTree.ReduceKeepsManaged | scripts/delivery/productionArtifactRetention.ts:432-577 | each rename, unlink and directory removal leaves a tree that verifies again, no deeper and with no more entries |
| ManagedTree.ReduceMakesProgress | scripts/delivery/productionArtifactRetention.ts:513-577 | each brings the tree one step nearer to empty |
| ManagedTree.AllManagedMeansEveryPlace | scripts/delivery/productionArtifactRetention.ts:432-577 | managed through and through means at every place |
| ManagedTree.DepthIsOfTheDeepest | scripts/delivery/productionArtifactRetention.ts:432-577 | the depth is that of a deepest directory |
| ManagedTree.CountIsOfPlaces | scripts/delivery/productionArtifactRetention.ts:432-577 | the counted entries are the places in the tree |
| ManagedTree.TreeIsManagedExactly | scripts/delivery/productionArtifactRetention.ts:432-577 | a tree verifies exactly if root and every place are managed, with at most 4608 places and no directory below twenty levels |
| ArtifactRetention.EndIsExact | scripts/delivery/productionArtifactRetention.ts:674-790 | the end has exactly the referenced releases and runtimes published |
| ArtifactRetention.TwoReleasesAreReduced | scripts/delivery/productionArtifactRetention.ts:674-790 | a concrete disk that verifies, and its end |
| ArtifactRetention.DamageIsRefused | scripts/delivery/productionArtifactRetention.ts:674-790 | damage to any published artifact, referenced or not, stops the whole retention |
| ArtifactRetention.ReferencedRuntimesAreKept | scripts/delivery/productionArtifactRetention.ts:715-720 | the runtime of a referenced release is referenced |
| ArtifactRetention.Store.ReapEntry | scripts/delivery/productionArtifactRetention.ts:579-605 | removes one left-over entry and nothing else |
| ArtifactRetention.Store.RetireAndReap | scripts/delivery/productionArtifactRetention.ts:607-627 | unpublishes exactly one entry |
| ArtifactRetention.Store.RetireUnreferenced | scripts/delivery/productionArtifactRetention.ts:764-789 | leaves only referenced entries published |
| ArtifactRetention.Store.Retain | scripts/delivery/productionArtifactRetention.ts:674-799 | without complete verification nothing changes; otherwise every state is recoverable and a return is the end state |
| ArtifactRetention.RetainUntilDone | scripts/delivery/productionArtifactRetention.ts:674-799 | reruns after any interruptions reach the end of the uninterrupted retention, paired throughout |
| SnapshotIdentity.TextOrderIsNumberOrder | scripts/delivery/databaseSnapshotRetention.ts:418-420 | text order of identities is the order of their numbers |
| SnapshotIdentity.WrittenOrderIsDigitOrder | scripts/delivery/databaseSnapshotRetention.ts:418-420 | hyphens and hexadecimal characters keep the order of the digits |
| SnapshotIdentity.HyphensComeOff | scripts/delivery/databaseSnapshotRetention.ts:127-131 | removing the hyphens leaves exactly the digits |
| SnapshotIdentity.IdentityOrderIsNumberOrder | scripts/delivery/databaseSnapshotRetention.ts:418-420 | written identities are ordered as their numbers |
| SnapshotIdentity.TimestampIsThePrefix | scripts/delivery/databaseSnapshotRetention.ts:127-131 | the parsed first twelve digits are the number without its low eighty bits, and a safe integer |
| SnapshotIdentity.TimestampFollowsOrder | scripts/delivery/databaseSnapshotRetention.ts:127-131 | a later identity never carries an earlier timestamp |
| SnapshotRetention.DoomedDoNotMatter | scripts/delivery/databaseSnapshotRetention.ts:418-444 | removing one doomed snapshot does not change who survives |
| SnapshotRetention.NoneOfTheDoomedMatter | scripts/delivery/databaseSnapshotRetention.ts:418-444 | the same for any set of doomed snapshots |
| SnapshotRetention.DoomedStayDoomed | scripts/delivery/databaseSnapshotRetention.ts:428-437 | what is doomed now is doomed at any later time |
| SnapshotRetention.NewestAreFew | scripts/delivery/databaseSnapshotRetention.ts:428-437 | exactly n identities, or all if there are fewer, have fewer than n newer ones |
| SnapshotRetention.SurvivorsAreFew | scripts/delivery/databaseSnapshotRetention.ts:421-437 | the protected survive and, up to five in all, as many young ones as there are |
| SnapshotRetention.SurvivorsAreYoung | scripts/delivery/databaseSnapshotRetention.ts:421-437 | an unprotected survivor is at most two days old |
| SnapshotRetention.DroppedForFiveOthers | scripts/delivery/databaseSnapshotRetention.ts:421-437 | a young snapshot is dropped only for five others that are protected or newer |
| SnapshotRetention.SurvivorsSurvive | scripts/delivery/databaseSnapshotRetention.ts:418-444 | the survivors of the survivors are the survivors |
| SnapshotRetention.SliceIsNewest | scripts/delivery/databaseSnapshotRetention.ts:418-437 | the slice of the sorted identities is the set with fewer newer ones |
| SnapshotRetention.KeptUnprotected | scripts/delivery/databaseSnapshotRetention.ts:418-437 | sort, filter and slice keep exactly the newest young ones beside the protected |
| SnapshotStore.StepKeepsVerdicts | scripts/delivery/databaseSnapshotRetention.ts:410-444 | a removal step changes no other snapshot's verdict, now or later |
| SnapshotStore.StepKeepsEnd | scripts/delivery/databaseSnapshotRetention.ts:410-444 | a removal step leaves the end of every later retention where it was |
| SnapshotStore.StepKeepsClean | scripts/delivery/databaseSnapshotRetention.ts:273-282 | foreign contents in a doomed entry are never removed |
| SnapshotStore.EndHoldsTheSurvivors | scripts/delivery/databaseSnapshotRetention.ts:438-444 | the snapshots left are exactly the survivors, at most five unless more are protected; of the stages those of protected ones, and nothing retired |
| SnapshotStore.RetentionIsIdempotent | scripts/delivery/databaseSnapshotRetention.ts:359-454 | rerunning at the same time removes nothing |
| SnapshotStore.Store.Reap | scripts/delivery/databaseSnapshotRetention.ts:261-353 | removes one retired snapshot unless it holds foreign contents |
| SnapshotStore.Store.RetirePublished | scripts/delivery/databaseSnapshotRetention.ts:418-444 | the selection made once stays right while its members are removed one by one |
| SnapshotStore.Store.Retain | scripts/delivery/databaseSnapshotRetention.ts:359-454 | refused it changes nothing; otherwise every state leads to the same later ends and a return is the end |
| SnapshotStore.RetainTwice | scripts/delivery/databaseSnapshotRetention.ts:359-454 | an interrupted retention followed by a later one ends as the later one alone would |
| ExclusiveProcessLock.StepKeepsInvariant | scripts/delivery/exclusiveProcessLock.ts:175-349 | every step of every process, death, reboot and tick keeps the invariant |
| ExclusiveProcessLock.StaleMeansAbandoned | scripts/delivery/exclusiveProcessLock.ts:264-318 | a stale lock has no process between its create and its unlink |
| ExclusiveProcessLock.StaysStale | scripts/delivery/exclusiveProcessLock.ts:264-318 | a verdict of staleness stays true while the stamp stays |
| ExclusiveProcessLock.OthersKeepTheirStage | scripts/delivery/exclusiveProcessLock.ts:175-349 | no process disturbs what another's stage relies on |
| ExclusiveProcessLock.RunIsExclusive | scripts/delivery/exclusiveProcessLock.ts:320-368 | at most one process is between acquire and release in every state of every run |
| ExclusiveProcessLock.RecoveryRemovesExactlyOrphans | scripts/delivery/exclusiveProcessLock.ts:275-318 | an undisturbed recovery removes the file exactly if it names no live process or was left incomplete for five seconds, and changes nothing else |
| ExclusiveProcessLock.AcquisitionHolds | scripts/delivery/exclusiveProcessLock.ts:178-216 | with nothing at the path create, write and confirm make the process the holder of a file that names it |
| ExclusiveProcessLock.ReleaseFreesThePath | scripts/delivery/exclusiveProcessLock.ts:333-348 | a holder's release leaves nothing at the path |
| ExclusiveProcessLock.DeathOrphans | scripts/delivery/exclusiveProcessLock.ts:263-272 | a reboot or the owner's death orphans its file |
| ExclusiveProcessLock.DeadOwnersAreReplaced | scripts/delivery/exclusiveProcessLock.ts:320-331 | in every world whose path is empty or holds an orphaned file a process that nobody disturbs gets the lock |
| ExclusiveProcessLock.HolderKeepsItsFile | scripts/delivery/exclusiveProcessLock.ts:333-350 | the lock file is the holder's until it releases or dies |
| ExclusiveProcessLock.SplitRemovalBreaksExclusion | scripts/delivery/exclusiveProcessLock.ts:296-317 | a run with a split comparison and unlink that ends with two holders |
| ExclusiveProcessLock.SlowCreatorBreaksExclusion | scripts/delivery/exclusiveProcessLock.ts:178-210 | a run with a creator slower than the grace period that ends with two holders |
| ArtifactDirectories.SlicesAreAncestors | scripts/delivery/productionArtifactCapacity.ts:101-106 | joined proper slices of the split path are exactly what stands before its slashes |
| ArtifactDirectories.DirectoriesForRelease | scripts/delivery/productionArtifactCapacity.ts:97-108 | admission collects the root and exactly the ancestors of the files |
| ArtifactDirectories.ClimbFrom | scripts/delivery/productionReleasePublication.ts:119-125 | repeated directory names below the root are exactly the ancestors |
| ArtifactDirectories.ReleaseDirectories | scripts/delivery/productionReleasePublication.ts:114-129 | the copy collects the root and exactly the ancestors of the files below it |
| ArtifactDirectories.SameDirectoryCount | scripts/delivery/productionReleasePublication.ts:381-390 | both count the same number of directories |
| ArtifactCapacity.RoundedAllocation | scripts/delivery/productionArtifactCapacity.ts:110-112 | the least multiple of the block size that holds the bytes |
| ArtifactCapacity.FitsCapacity | scripts/delivery/productionArtifactCapacity.ts:114-148 | accepts exactly well-counted inventories whose requirement and reserves fit |
| ArtifactCapacity.RequiredIsTheCharges | scripts/delivery/productionArtifactCapacity.ts:133-140 | the requirement is the sum of one charge per object |
| ArtifactCapacity.CreationIsBounded | scripts/delivery/productionArtifactCapacity.ts:133-148 | created in any order, a prefix takes at most the requirement |
| ArtifactCapacity.ReservesStay | scripts/delivery/productionArtifactCapacity.ts:141-148 | both reserves are intact at every prefix of an admitted copy |
| ArtifactCapacity.RequiredOfBoth | scripts/delivery/productionArtifactCapacity.ts:433-447 | the requirement of a combined inventory is the sum of its parts |
| ArtifactCapacity.RemainderFits | scripts/delivery/productionArtifactCapacity.ts:171-191 | two inventories admitted together: the second is admitted at every moment of the first's creation |
| ArtifactCapacity.AdmitDelivery | scripts/delivery/productionArtifactCapacity.ts:373-457 | the outer admission with its early returns and its two devices |
| ArtifactCapacity.RuntimeCopyIsAdmitted | scripts/delivery/productionRuntime.ts:311-318 | after the runtime's directories its copy is admitted |
| ArtifactCapacity.ReleaseCopyIsAdmitted | scripts/delivery/productionReleasePublication.ts:381-390 | after the runtime the copy of the release is admitted |
| ArtifactCapacity.DeliveryCreatesProduction | scripts/delivery/productionArtifactCapacity.ts:390-408 | what a delivery makes, in its order, is exactly what the outer admission charged |
| ArtifactCapacity.PartsAreAdmittedThroughout | scripts/delivery/productionArtifactCapacity.ts:374-432 | the same for inventories: whichever slots are filled and wherever the candidate copy goes, the inner admissions pass and no reserve is touched at any point |
| ArtifactCapacity.CandidateIsAdmittedAfterProduction | scripts/delivery/productionArtifactCapacity.ts:433-447 | on one device the candidate copy is admitted after any part of the production copies, and the reserves last through both |
| ArtifactCapacity.ProductionIsWellCounted | scripts/delivery/productionArtifactCapacity.ts:20-21 | without a candidate copy every admissible tree passes the object limit |
| ArtifactCapacity.CombinedObjectLimit | scripts/delivery/productionArtifactCapacity.ts:20-21 | with one on the same device exactly the published releases pass, and the trees with at most 4608 files and directories, one more if the runtime is installed |
| DeliveredObjects.InstallerIsCharged | scripts/delivery/productionRuntime.ts:477-494 | the directories the installer makes, the shared one if missing and one for the revision, are as many as admission charges |
| DeliveredObjects.TreeIsCharged | scripts/delivery/productionReleasePublication.ts:391-411 | a copied tree, each file once and each directory it needs once, is the inventory that admission charges |
| DeliveredObjects.StagingIsCharged | scripts/delivery/productionReleaseProvisioner.ts:866-895 | staging a candidate, archive and tree in one stage and the pair in another, creates exactly what admission charges |
| DeliveredObjects.RealizedIsCreated | scripts/delivery/productionArtifactCapacity.ts:133-140 | objects made one by one, each within its own charge, create their inventory |
| DeliveredObjects.RequiredBytes | scripts/delivery/productionArtifactCapacity.ts:154-161 | the bytes of the first record with that path, or none exactly if there is no such record |
| DeliveredObjects.AdmitRelease | scripts/delivery/productionArtifactCapacity.ts:373-457 | the outer admission over the directories it finds and the records it read, with both early ends |
| DeliveredObjects.DeliveryIsAdmittedThroughout | scripts/delivery/productionArtifactCapacity.ts:374-432 | over the paths that are made: an admitted delivery passes both inner admissions with the copy's own directory count, and no reserve is touched at any point |
| DeliveredObjects.StagingIsAdmittedThroughout | scripts/delivery/productionArtifactCapacity.ts:409-457 | staging the candidate touches no reserve either, on its own device or after the production copies |
| LargestRelease.LargestIsRefused | scripts/delivery/productionArtifactCapacity.ts:433-447 | any set of required files can be filled up to 4098 files in 512 directories, and is then refused at every capacity |
| LargestRelease.PaddedDirectories | scripts/delivery/releaseArtifactInventory.ts:135-144 | a tree so filled has exactly the permitted number of directories |
| LargestRelease.PaddingIsBelowBrowser | scripts/delivery/releaseIdentity.ts:49-59 | everything added lies below one allowed root |
| LargestRelease.SmallCoreIsCore | scripts/delivery/releaseIdentity.ts:41-59 | the two identity files at the root and one file each below three allowed roots are such a set |
| LargestRelease.ArchivedTreesPass | scripts/delivery/productionReleaseArchive.ts:7-29 | a tree within the cap of an archive listing passes the object limit in every slot state |
| TestOutputPolicy.Find | scripts/testOutputPolicy.ts:52-55 | the first rule that matches anywhere, or none exactly if none matches |
| TestOutputPolicy.FoldIdentifiesLetters | scripts/testOutputPolicy.ts:10-43 | folding identifies exactly the two cases of one ASCII letter |
| TestOutputPolicy.MatchesAreOccurrences | scripts/testOutputPolicy.ts:10-43 | a match is an occurrence up to the case of ASCII letters, and nothing else |
| TestOutputPolicy.FindSpelledOut | scripts/testOutputPolicy.ts:52-55 | what is found is the first rule that occurs somewhere in the text, unit by unit |
| TestOutputPolicy.MatchReachesTail | scripts/testOutputPolicy.ts:45-80 | a new match always lies in the retained tail and the new chunk |
| TestOutputPolicy.TailSuffices | scripts/testOutputPolicy.ts:75-80 | searching tail and chunk finds the same rule as searching everything so far |
| TestOutputPolicy.TestOutputInspector.Inspect | scripts/testOutputPolicy.ts:74-81 | after each chunk the violation is the verdict on the whole stream |
| TestOutputPolicy.InspectAll | scripts/testOutputPolicy.ts:61-82 | for any split into chunks a violation is reported exactly if some rule occurs at some place of the concatenation, each unit equal or the other case of one ASCII letter |
| TestOutputPolicy.VerdictIsSearch | scripts/testOutputPolicy.ts:52-80 | the chunked verdict exists exactly if the concatenated text matches |
| TestOutputPolicy.VerdictIsTheFirst | scripts/testOutputPolicy.ts:74-81 | it is given at the first chunk up to which the text matches, and names that text's first rule |
| TestOutputPolicy.VerdictSpelledOut | scripts/testOutputPolicy.ts:74-81 | a rule is reported exactly if some chunk completes the log's first forbidden message and it is the first rule that then occurs |
| TestOutputPolicy.FirstViolationEndsThere | scripts/testOutputPolicy.ts:74-81 | every occurrence in the whole log ends in that chunk or later |
| BoundedConcurrency.StepKeepsInvariant | scripts/checkSourceBoundaries.ts:31-45 | under any interleaving each index is held by at most one worker or has its final result |
| BoundedConcurrency.StepKeepsIndices | scripts/checkSourceBoundaries.ts:35-42 | a taken index is held or has exactly the sequential result |
| BoundedConcurrency.StepKeepsStarted | scripts/checkSourceBoundaries.ts:35-42 | each defined index below the shared one was started exactly once, in order |
| BoundedConcurrency.InFlightIsBounded | scripts/checkSourceBoundaries.ts:33-34 | at most min(limit, n) transforms are in flight, on distinct indices |
| BoundedConcurrency.WorkersRunTogether | scripts/checkSourceBoundaries.ts:33-34 | the bound is used to the full: limit transforms, or all there are, can be in flight at once |
| BoundedConcurrency.StepMakesProgress | scripts/checkSourceBoundaries.ts:35-42 | every step that can run brings the end nearer |
| BoundedConcurrency.EndIsTheMap | scripts/checkSourceBoundaries.ts:43-45 | without a rejection the results are the sequential map in input order |
| BoundedConcurrency.MapWithBoundedConcurrency | scripts/checkSourceBoundaries.ts:26-46 | under any schedule it rejects exactly if some transform does and else returns the sequential map |
| BoundedConcurrency.NoWorkersMapNothing | scripts/checkSourceBoundaries.ts:33-34 | without workers the result is the map exactly if there is nothing to transform |
| StartupGraph.ResolveOutputKey | scripts/frontendBuildArtifacts.ts:195-204 | a resolved key is an output of the same normalized path, the key itself if it is one |
| StartupGraph.NormalFormsAreOfOnePath | scripts/frontendBuildArtifacts.ts:70-72 | two keys have one normal form exactly if they agree after one leading dot and slash goes, whichever way their slashes lean |
| StartupGraph.ResolvesToTheSamePath | scripts/frontendBuildArtifacts.ts:195-204 | a key that is no output resolves to the last listed output of the same path, or to none if there is none |
| StartupGraph.ClosedHoldsTheReachable | scripts/frontendBuildArtifacts.ts:208-226 | a closed set with the app output holds everything reachable |
| StartupGraph.PushLoaded | scripts/frontendBuildArtifacts.ts:215-225 | pushes everything the output loads and nothing unreachable |
| StartupGraph.NeverEmptyOrUnknown | scripts/frontendBuildArtifacts.ts:209-212 | the skip tests never drop a reachable key that was not visited |
| StartupGraph.InitialOutputKeys | scripts/frontendBuildArtifacts.ts:190-229 | terminates with exactly the outputs reachable through stylesheets and static imports |

## Left out

- Descriptor, inode, owner, mode, link-count and mount checks: opening a directory or file is one operation that succeeds or throws, since the deployment lease serializes authorized changes.
- Hashing, byte-copy loops, JSON and schema parsing: parsing is the identity on well-formed values, and a file that does not parse is a read that throws.
- Stage files of the journal, record, receipt and owner writers: a replacement is one atomic write; a stage left by a crash makes the next receipt retention throw until the same writer removes it.
- DeliveryExecutor.Activate: progress is reported before the activation runs, and smoke when it has returned, instead of between its steps; the two write different files, so every pair of states they leave together is among the modelled ones.
- DeliveryExecutor.TransferOwner: publication and installation are one durable step each, after a preparation that only passes or throws.
- DeliveryExecutor.RunExecutor: the spawned process is a second run on the same hosts; its exit code is whether that run finished.
- ActivationProtocol.ServiceStepKeepsInvariant: a running release writes only a database that exists; one started without a database cannot create it here.
- ReleaseActivation.RetainSnapshots: the time of the retention is left open, and its own renames and refusals are the subject of SnapshotStore.Store.Retain.
- ReleaseActivation.RetainArtifacts: inside the protocol a release is one map entry; the retire-and-reap steps are ArtifactRetention's subject.
- ArtifactRetention.Store.Retain: a file renamed before an interruption is unlinked by the rerun without a second rename; changes of mode are not modelled.
- SnapshotIdentity.IdentityOrderIsNumberOrder: the locale-aware comparison of the source is read as comparison by character code, with which it agrees on lowercase hexadecimal text of one shape.
- SnapshotIdentity.TextOrderIsNumberOrder: compares digits by value, for the same reason.
- SnapshotIdentity.WrittenOrderIsDigitOrder: compares written identities by character code, for the same reason.
- ExclusiveProcessLock.RunIsExclusive: the compared metadata is a stamp that is new at every creation and write, and the wall clock does not run backwards; failures of the read and stat calls leave the protocol where it is.
- TestOutputPolicy.Find: the rules are literals, and without the Unicode flag the case-insensitive match folds only ASCII letters for them.
- BoundedConcurrency.MapWithBoundedConcurrency: a transform's outcome is a function of its value; after a rejection the remaining workers still run to their end, as in the source, and their results are discarded.
- DeliveredObjects.StagingIsAdmittedThroughout: the temporary link that selects the staged pair takes one more inode, which admission does not charge either.
- StartupGraph.InitialOutputKeys: the app output key is a parameter; how it is found among the outputs is not part of this model.
- ActivationRuns.RollbackIsFinal: transition identities are not used twice; the source draws a fresh one or takes the operation's own.
- DeliveryExecutor.Deliver: receipt retention is called only when it protects the executor owner's receipt, which is the condition DeliveryOwnership.RetentionIsSafeExactly proves necessary.
- Expected tree entries, freezing and discarding of published release trees, and runtime ownership policy: set and mode comparisons that would add only easy members.
- The database snapshot's own manifest validation, the services, the smoke test, provisioning, packaging, downloads and command-line parsing: dependencies or plain input and output.
- Inventory discovery, the timing document and LCOV parsing: simple folds that would add only easy members.
