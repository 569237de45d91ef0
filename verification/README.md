# Battle activation, ingest, history and release: models and proofs

A Dafny model of the parts of the STFC Community Mod launcher whose correctness is hardest to see by
reading, with proofs about every run of them:

- **Battle lifecycle.** Activating Battle collection changes three independent resources (the ingest
  credential, the game configuration, the preferences) under a journal marker that moves from Prepared to
  CleanupPending, each step staging a successor and then installing it. `LifecycleMarker` is the marker
  codec's validation and succession rule, `ActivationPreparation` the preparer that plans the configuration
  edit and builds the prepared marker, `LifecycleProtocol` the durable state and every single durable
  action, `LifecycleOperations` the coordinators' procedures step by step with file operations that may
  fail, `LifecycleLimits` why the preparer's checks are needed.
- **Ingest.** `ChunkReassembly`, `ChunkDelivery` and `EnvelopeProcessor` are the chunked-request
  processor with its shared byte budget and leases; `IngestProtocol` and `IngestHost` are the host's dedupe
  map, bounded DropWrite queue and single worker, each lock body one atomic step; `IngestLimits` holds the
  numeric bounds both rely on.
- **Battle history.** `CaptureTables`, `CaptureInvariant`, `CaptureReplay` and `CaptureRepository` are the
  relational store: captures attach to battles through aliases, conflicts are marked, and a replayed batch
  is re-verified row by row. `IdentityEncoding` is the digest input of every identity.
- **Release policy.** `ReleasePolicy`, `ReleaseSelection` and `ReleaseStore` are the two anti-rollback
  guards, the choice among accepted candidates and the state store.
- **CI launcher.** `CommandLine` is Windows argument quoting with an independent parser, `AclGrant` the
  checking and in-place building of access-control lists.
- **Runtime composition.** `RuntimeComposition` is the coordinator that owns one host and its lease.

`Common` and `Sums` hold shared vocabulary. Each imperative method is proved against a function of its
inputs and the old state, or against a recorded run of its protocol; the lemmas about those functions and
runs are the main results.

Recovery and commit converge for every operation the preparer creates, with the admission of the
installation as the only remaining condition (`LifecycleOperations.BattleLifecycle.Recover`,
`LifecycleOperations.BattleLifecycle.CommitExact`). For an arbitrary valid marker the exact condition is
stated beside it, and `LifecycleLimits` shows what would happen without the preparer's checks.

Ways in which the code does not do what one may expect, each with a concrete case and the exact condition:

- A replayed batch is refused when another producer stored one of its events first and the event does not
  carry its own source, session and version (`CaptureReplay.ReplayCanBeRefused`, `CaptureReplay.ExactReplay`);
  the answer is settled by the batch's own commit (`CaptureReplay.ReplayIsSettled`).
- A lease is stranded exactly when at least two chunks complete one inside the other and the innermost
  announced the envelope in the last buffer (`EnvelopeProcessor.NestedChunkStrandsALease`,
  `EnvelopeProcessor.StrandedExactly`).
- After a cancelled drain exactly the writes that met a channel not completed yet stay counted in a queue
  nobody reads (`IngestHost.CancelledDrainStrandsWork`, `IngestHost.EndedCounters`).

## Model

| member | source | states |
|---|---|---|
| LifecycleMarker.StrictOrderDeterminesResources | src/STFCCommunityMod.Launcher.Core/BattleLifecycleJournal.cs:263-319 | comparing resources role by role and by count is equality of the lists, because both are in strict role order |
| LifecycleMarker.ValidMarkerMeans | src/STFCCommunityMod.Launcher.Core/BattleLifecycleJournal.cs:437-547 | what makes a marker valid, part by part: the three possible feature sets, unaffected features unchanged and affected ones enabled, truthful summaries, roles in name order, distinct paths, a runtime lock, a backup exactly from BackupVerified on |
| LifecycleMarker.SuccessorKeepsBinding | src/STFCCommunityMod.Launcher.Core/BattleLifecycleJournal.cs:263-319 | an accepted successor is at the next stage or Failed, keeps operation, owner, resources, features and candidates, and sets the backup only on reaching BackupVerified |
| LifecycleMarker.SuccessionIsExactly | src/STFCCommunityMod.Launcher.Core/BattleLifecycleJournal.cs:263-319 | a successor is accepted exactly when it is one stage further or failed before cleanup, its time does not go back, and nothing else differs but a backup set on reaching BackupVerified |
| LifecycleMarker.NextMarkerIsValid | src/STFCCommunityMod.Launcher.Core/BattleLifecycleJournal.cs:263-319 | moving a valid marker to its next stage, other than BackupVerified, is always an accepted succession |
| LifecycleMarker.BackupSuccession | src/STFCCommunityMod.Launcher.Core/BattleLifecycleJournal.cs:599-627 | binding the backup of the source is an accepted succession from Quiesced |
| LifecycleMarker.HistoriesAreBoundedAndBinding | src/STFCCommunityMod.Launcher.Core/BattleLifecycleJournal.cs:437-547 | every chain of markers from Prepared makes at most five advances through the stages in order, never changes its binding, and sets the backup once or never |
| ActivationPreparation.Apply | src/STFCCommunityMod.Launcher.Core/SyncTopologyPersistence.cs:65-109 | the loop applies the planned edits in order, stops at the first refusal and reports whether any edit changed the bytes |
| ActivationPreparation.PlanReadsBack | src/STFCCommunityMod.Launcher.Core/SyncTopologyPersistence.cs:240-358 | reading back what the planned edits lead to gives the target as wanted, whatever it was before |
| ActivationPreparation.PlanStaysWithinOwnership | src/STFCCommunityMod.Launcher.Core/BattleLifecycleActivationPreparation.cs:417-423 | settings other than the seven owned ones keep their value |
| ActivationPreparation.CandidateExactly | src/STFCCommunityMod.Launcher.Core/BattleLifecycleActivationPreparation.cs:356-454 | a candidate is built exactly for a legible source without other errors, with a matching review where the local target has any setting, and a plan that is not empty, accepted and within the size bound; it differs from its source and its verification never fails |
| ActivationPreparation.CreateExactly | src/STFCCommunityMod.Launcher.Core/BattleLifecycleActivationPreparation.cs:159-321 | an activation is prepared exactly for a closed set of eligible features, no other feature sharing the target, a credential within bounds and a candidate; the marker's validation never refuses it |
| ActivationPreparation.CreatedCandidates | src/STFCCommunityMod.Launcher.Core/BattleLifecycleActivationPreparation.cs:76-85 | the candidate bytes handed over are exactly the ones the marker binds |
| ActivationPreparation.CreatedPromises | src/STFCCommunityMod.Launcher.Core/BattleLifecycleActivationPreparation.cs:210-300 | from the request alone: exactly the requested features become enabled and no other preference moves, and the resources go from the request's own source and no credential to its credential and candidate |
| ActivationPreparation.CreatedMarkerStarts | src/STFCCommunityMod.Launcher.Core/BattleLifecycleActivationPreparation.cs:249-293 | an activation starts unbacked at its first stage from a target that is not shared to one that is, with a first-generation credential and a runtime lock that is no candidate |
| ActivationPreparation.CandidateShowsRequest | src/STFCCommunityMod.Launcher.Core/BattleLifecycleActivationPreparation.cs:397-450 | the bound candidate assigns exactly what was requested, setting by setting, leaves all others alone, and switches on the very features the marker enables |
| ActivationPreparation.CreatedIsRecoverable | src/STFCCommunityMod.Launcher.Core/BattleLifecycleActivationPreparation.cs:159-321 | whatever the preparer creates can be committed and recovered: all three resources bound, credential within bounds and kept beside the marker, candidate not empty and different from its source, both texts valid |
| LifecycleProtocol.ActionsKeepInv | src/STFCCommunityMod.Launcher.Core/BattleLifecycleJournal.cs:872-1187 | every durable action of every procedure keeps the journal's files and the three resources in step |
| LifecycleProtocol.RunsKeepInv | src/STFCCommunityMod.Launcher.Core/BattleLifecycleJournal.cs:1010-1187 | the invariant holds in every state of every interleaving of actions and crashes |
| LifecycleProtocol.MarkerGoneIsAllOrNothing | src/STFCCommunityMod.Launcher.Core/BattleLifecycleJournal.cs:1412-1625 | whenever the marker is gone the resources are all as before or all as promised |
| LifecycleProtocol.NothingChangesBeforeCommitStarted | src/STFCCommunityMod.Launcher.Core/BattleLifecycleCommit.cs:420-442 | until the CommitStarted marker itself is durable no resource differs from its origin, which is what lets rollback ignore the preferences |
| LifecycleProtocol.ResourcesChangeAsAChain | src/STFCCommunityMod.Launcher.Core/BattleLifecycleCommit.cs:444-682 | in every state changed preferences imply the candidate configuration, and that implies the promoted credential |
| LifecycleProtocol.VerdictIsNeverWrong | src/STFCCommunityMod.Launcher.Core/BattleLifecycleCommit.cs:512-595 | from the first marker or staged successor that says the commit is verified, all resources are after in every later state and nothing is compensated |
| LifecycleProtocol.CommitStartedNeverRollsBack | src/STFCCommunityMod.Launcher.Core/BattleLifecycleJournal.cs:1539-1625 | once CommitStarted is durable the operation can only end committed |
| LifecycleProtocol.InspectionAfterCommitStarted | src/STFCCommunityMod.Launcher.Core/BattleLifecycleJournal.cs:872-1008 | candidates survive until CleanupPending, and inspection is Readable, or recoverable exactly with a staged successor, under every partial cleanup |
| LifecycleProtocol.JournalStaysReadable | src/STFCCommunityMod.Launcher.Core/BattleLifecycleJournal.cs:899-997 | the same in every state of every run from CommitStarted on |
| LifecycleProtocol.InspectionExactly | src/STFCCommunityMod.Launcher.Core/BattleLifecycleJournal.cs:872-1008 | in every state of a run inspection finds a staged successor, a complete or cleaned-up operation, or residue, each exactly when the files say so, and never a failure |
| LifecycleProtocol.InspectionDetects | src/STFCCommunityMod.Launcher.Core/BattleLifecycleJournal.cs:953-990 | a foreign file, changed bytes, a successor beside missing candidates and an invalid succession are failures, and only changed bytes are a mismatch |
| LifecycleProtocol.EndsOfTheLadder | src/STFCCommunityMod.Launcher.Core/BattleLifecycleCommit.cs:712-721 | before and after, resource by resource, and the stored preference of each feature is its own transition's value |
| LifecycleProtocol.RunHistoriesAreBoundedAndBinding | src/STFCCommunityMod.Launcher.Core/BattleLifecycleJournal.cs:1051-1194 | over a run the marker file goes through a bounded, binding history, whether a step was taken by an advance or finished by recovery |
| LifecycleOperations.BattleLifecycle.Prepare | src/STFCCommunityMod.Launcher.Core/BattleLifecycleJournal.cs:1010-1049 | starts a run; without failures it succeeds exactly for a valid prepared marker on an empty disk and leaves lock and all candidates in place |
| LifecycleOperations.BattleLifecycle.WritePreparedCandidates | src/STFCCommunityMod.Launcher.Core/BattleLifecycleJournal.cs:1484-1537 | writes exactly the candidates the marker binds, leaving a prefix of them when a write fails |
| LifecycleOperations.BattleLifecycle.Advance | src/STFCCommunityMod.Launcher.Core/BattleLifecycleJournal.cs:1051-1111 | leaves the disk unchanged, with the successor staged, or with it installed; without failures it installs exactly a valid successor of a readable journal |
| LifecycleOperations.BattleLifecycle.ClearResidue | src/STFCCommunityMod.Launcher.Core/BattleLifecycleJournal.cs:1113-1161 | removes only empty directories and leaves every other part of the disk alone |
| LifecycleOperations.BattleLifecycle.RecoverJournal | src/STFCCommunityMod.Launcher.Core/BattleLifecycleJournal.cs:1113-1194 | finishes a staged successor or clears residue, never touches a resource, and from any started operation ends readable at the latest stage |
| LifecycleOperations.BattleLifecycle.ReadExactCandidate | src/STFCCommunityMod.Launcher.Core/BattleLifecycleJournal.cs:1196-1239 | returns a candidate's exact bytes, refusing an empty or oversized one; without failures exactly then |
| LifecycleOperations.BattleLifecycle.PrepareVerifiedBackup | src/STFCCommunityMod.Launcher.Core/BattleLifecycleConfigurationBackup.cs:29-165 | records a faithful backup of the source under a fresh id; without failures it succeeds exactly from a prepared or quiesced marker that binds this source when the clock has not gone back, and is blocked otherwise |
| LifecycleOperations.BattleLifecycle.DeleteOperation | src/STFCCommunityMod.Launcher.Core/BattleLifecycleJournal.cs:1412-1467 | deletes candidates, lock and directories before the marker, so a crash in between stays a state of the run |
| LifecycleOperations.BattleLifecycle.DeleteCommittedArtifacts | src/STFCCommunityMod.Launcher.Core/BattleLifecycleJournal.cs:1308-1482 | cleanup ends marker-free with an absent journal and a lock only where its owner keeps it; exactly at CleanupPending with a lock to keep |
| LifecycleOperations.BattleLifecycle.RollbackPrepared | src/STFCCommunityMod.Launcher.Core/BattleLifecycleJournal.cs:1539-1652 | rollback ends marker-free with all resources at their origin; without failures exactly before CommitStarted, with no successor and matching configuration and no credential |
| LifecycleOperations.BattleLifecycle.CreateCredential | src/STFCCommunityMod.Launcher.Core/BattleIngestCredentialStore.cs:453-525 | creates the credential exactly when there is none yet and its bytes are 1 to 16 KiB |
| LifecycleOperations.BattleLifecycle.RollbackCredential | src/STFCCommunityMod.Launcher.Core/BattleIngestCredentialStore.cs:643-655 | undoes exactly this run's creation |
| LifecycleOperations.BattleLifecycle.SaveDocument | src/STFCCommunityMod.Launcher.Core/AtomicTomlStore.cs:168-406 | compare-and-swap of the configuration; without failures it saves exactly when both texts parse and differ and the file still holds the expected one |
| LifecycleOperations.BattleLifecycle.SavePreferences | src/STFCCommunityMod.Launcher.Core/BattleLifecycleCommit.cs:497-504 | compare-and-swap of the preferences: without failures it saves exactly when they still hold the expected values |
| LifecycleOperations.BattleLifecycle.PromoteResources | src/STFCCommunityMod.Launcher.Core/BattleLifecycleCommit.cs:444-535 | moves the resources up their chain, tells exactly what it changed, and succeeds only with all three after; without failures exactly when both stores accept the changes |
| LifecycleOperations.BattleLifecycle.Compensate | src/STFCCommunityMod.Launcher.Core/BattleLifecycleCommit.cs:605-682 | undoes, in reverse order, only what this run promoted, never below the rung it found; from the bottom and without failures it restores everything |
| LifecycleOperations.BattleLifecycle.CommitExact | src/STFCCommunityMod.Launcher.Core/BattleLifecycleCommit.cs:300-603 | Succeeded means verified and each resource and each feature's preference as the marker promises, Compensated means started and each as it was found, Blocked means untouched, and anything else answers only the admitted operation under way with its own bytes and backup; a resumed commit never lowers the resources; without failures it succeeds exactly when admitted and savable, and for an operation the preparer created exactly when admitted |
| LifecycleOperations.BattleLifecycle.VerifyCommitted | src/STFCCommunityMod.Launcher.Core/BattleLifecycleCommit.cs:206-298 | accepts, without failures, exactly a readable verdict with admitted evidence, and then all resources are after |
| LifecycleOperations.BattleLifecycle.RecoverCommitStarted | src/STFCCommunityMod.Launcher.Core/BattleLifecycleCommit.cs:86-204 | resumes from the candidates kept beside the marker; without failures it reaches CommitVerified exactly when admitted and recoverable, and for an operation the preparer created exactly when admitted |
| LifecycleOperations.BattleLifecycle.Recover | src/STFCCommunityMod.Launcher.Core/BattleLifecycleRecovery.cs:49-176 | one failure-free recovery run from any crash state at CommitStarted or later, staged successor and partial cleanup included, ends marker-free with all resources after, exactly when admitted and, from CommitStarted, recoverable; for an operation the preparer created exactly when admitted |
| LifecycleLimits.OnlySavableOperationsCommit | src/STFCCommunityMod.Launcher.Core/BattleLifecycleCommit.cs:475-488 | no run of an operation its stores do not accept ever shows a commit verdict |
| LifecycleLimits.UnsavableOperationsStayStarted | src/STFCCommunityMod.Launcher.Core/BattleLifecycleCommit.cs:475-488 | such an operation, once started, is still at CommitStarted in every later state |
| LifecycleLimits.PreparerRefusesUnsavable | src/STFCCommunityMod.Launcher.Core/BattleLifecycleActivationPreparation.cs:417-430 | the preparer never creates an operation the stores do not accept |
| LifecycleLimits.UnchangedConfigurationGetsStuck | src/STFCCommunityMod.Launcher.Core/BattleLifecycleActivationPreparation.cs:417-430 | why the preparer refuses an empty plan and an edit without change: a marker it never builds could reach CommitStarted and have no continuation that leaves it |
| ChunkReassembly.AdmittingKeepsInv | src/STFCCommunityMod.Launcher.Core/BattleIngestEnvelopeProcessor.cs:228-314 | one chunk delivery keeps counters, group bounds and the byte budget |
| ChunkReassembly.PruningRemovesExpired | src/STFCCommunityMod.Launcher.Core/BattleIngestEnvelopeProcessor.cs:415-424 | a group is removed exactly when its last chunk is a timeout old, and its bytes are given back |
| ChunkReassembly.DisagreementDropsGroup | src/STFCCommunityMod.Launcher.Core/BattleIngestEnvelopeProcessor.cs:246-274 | a chunk of another shape, or repeated with other bytes, is a conflict, one that overfills the group is too large, and each drops the whole group with its bytes |
| ChunkReassembly.AdmissionAnswers | src/STFCCommunityMod.Launcher.Core/BattleIngestEnvelopeProcessor.cs:236-298 | each answer exactly, in numbers: which chunk waits and with which count, which completes a buffer, and when the group table, the group's total or the byte budget refuses it |
| ChunkReassembly.BytesAreConserved | src/STFCCommunityMod.Launcher.Core/BattleIngestEnvelopeProcessor.cs:56-66 | in every interleaving of deliveries, releases, prunes and clears the accounted bytes are those of groups plus leases and within the cap |
| ChunkDelivery.ReassemblyIgnoresOrder | src/STFCCommunityMod.Launcher.Core/BattleIngestEnvelopeProcessor.cs:228-316 | pieces in any order with any repeats, between any deliveries, prunes and releases of others that leave room, wait, counted once each, until the last hands on exactly the byte string |
| ChunkDelivery.NothingIsRefusedOnItsOwn | src/STFCCommunityMod.Launcher.Core/BattleIngestContracts.cs:118-141 | with validated limits and nothing else pending no delivery is refused, because the cap is twice the largest buffer |
| EnvelopeProcessor.ReassemblyShrinks | src/STFCCommunityMod.Launcher.Core/BattleIngestEnvelopeProcessor.cs:172-330 | a completed chunk leaves fewer groups or shorter bytes, so nested parsing ends |
| EnvelopeProcessor.LeasesAfterParse | src/STFCCommunityMod.Launcher.Core/BattleIngestEnvelopeProcessor.cs:318-329 | at any depth of chunks inside chunks exactly the leases of the innermost chunks in a row that announced the last buffer are still held, and the answer is complete, with the outermost lease, exactly when all did |
| EnvelopeProcessor.RejectionIsExplained | src/STFCCommunityMod.Launcher.Core/BattleIngestEnvelopeProcessor.cs:318-329 | an unreadable last buffer gives its own code through any depth, an envelope that a chunk around it did not announce gives a chunk conflict |
| EnvelopeProcessor.PlainAnswer | src/STFCCommunityMod.Launcher.Core/BattleIngestEnvelopeProcessor.cs:68-109 | a request that completes no buffer is refused by size, by its reader or by its own admission, waits with the counts of its group, or is the complete envelope |
| EnvelopeProcessor.StrandedExactly | src/STFCCommunityMod.Launcher.Core/BattleIngestEnvelopeProcessor.cs:318-329 | a lease is stranded exactly when two chunks or more complete one inside the other and the innermost announced the last buffer, whatever the outer ones announced |
| EnvelopeProcessor.PlainBuffersStrandNothing | src/STFCCommunityMod.Launcher.Core/BattleIngestEnvelopeProcessor.cs:318-329 | a buffer that is not itself a transport chunk strands no lease |
| EnvelopeProcessor.ReleaseToZero | src/STFCCommunityMod.Launcher.Core/BattleIngestEnvelopeProcessor.cs:56-66 | when nothing else was leased and no group is left, disposing the answer's lease empties the budget exactly when nothing is stranded |
| EnvelopeProcessor.NestedChunkStrandsALease | src/STFCCommunityMod.Launcher.Core/BattleIngestEnvelopeProcessor.cs:318-329 | an envelope in a chunk in a chunk, both of which the reader reads back, leaves its bytes accounted for after the answer's lease is disposed |
| EnvelopeProcessor.EnvelopeProcessor.PruneExpired | src/STFCCommunityMod.Launcher.Core/BattleIngestEnvelopeProcessor.cs:415-424 | removes exactly the groups whose last chunk is too old, with their bytes |
| EnvelopeProcessor.EnvelopeProcessor.ClearPendingChunks | src/STFCCommunityMod.Launcher.Core/BattleIngestEnvelopeProcessor.cs:56-66 | drops all groups with their bytes and leaves the leases |
| EnvelopeProcessor.EnvelopeProcessor.ReleaseProcessingMemory | src/STFCCommunityMod.Launcher.Core/BattleIngestEnvelopeProcessor.cs:434-440 | gives a lease's bytes back once |
| EnvelopeProcessor.EnvelopeProcessor.Reassemble | src/STFCCommunityMod.Launcher.Core/BattleIngestEnvelopeProcessor.cs:298-312 | the buffer is the concatenation of the chunks in index order, written within bounds |
| EnvelopeProcessor.EnvelopeProcessor.AdmitChunk | src/STFCCommunityMod.Launcher.Core/BattleIngestEnvelopeProcessor.cs:230-314 | the lock body is the delivery step the theorems are about and keeps the invariant |
| EnvelopeProcessor.EnvelopeProcessor.ParseRequest | src/STFCCommunityMod.Launcher.Core/BattleIngestEnvelopeProcessor.cs:68-109 | the recursive parse is the one the lease theorems are about and ends |
| IngestProtocol.StepsKeepInv | src/STFCCommunityMod.Launcher.Core/BattleIngestHost.cs:450-620 | every atomic step of handlers, worker and stop keeps dedupe map, queue counters and channel in step |
| IngestProtocol.WriteNeverDrops | src/STFCCommunityMod.Launcher.Core/BattleIngestHost.cs:545-564 | at every write the DropWrite channel has room, because the writer's own reservation is counted |
| IngestProtocol.QueueNeverDrops | src/STFCCommunityMod.Launcher.Core/BattleIngestHost.cs:530-564 | in every run nothing is dropped, counters equal the reservations in flight, and the dedupe map stays within 2048 entries |
| IngestProtocol.PrunedIsSmall | src/STFCCommunityMod.Launcher.Core/BattleIngestHost.cs:724-738 | pruning always makes room, since uncommitted entries are bounded by concurrent requests and queue places |
| IngestProtocol.OneInFlightPerIdentity | src/STFCCommunityMod.Launcher.Core/BattleIngestHost.cs:450-478 | two unsettled items never share an identity |
| IngestProtocol.SinkSucceedsOncePerEntry | src/STFCCommunityMod.Launcher.Core/BattleIngestHost.cs:566-620 | while an entry is retained the sink has succeeded for its identity at most once since |
| IngestProtocol.DuplicateMeansCommitted | src/STFCCommunityMod.Launcher.Core/BattleIngestHost.cs:453-463 | duplicate is answered only for the very bytes a sink success committed under this identity |
| IngestProtocol.ArrivalLearns | src/STFCCommunityMod.Launcher.Core/BattleIngestHost.cs:450-478 | in every reachable state, from the entries kept by pruning: other bytes are a conflict whether committed or not, the same bytes a duplicate once committed and before that a join of that very unsettled item, an unknown identity draws a number never used |
| IngestProtocol.ReportedSuccessIsReal | src/STFCCommunityMod.Launcher.Core/BattleIngestHost.cs:566-606 | a completion reported as success is backed by a sink success of that item |
| IngestProtocol.IdleQueueAccepts | src/STFCCommunityMod.Launcher.Core/BattleIngestContracts.cs:128-131 | an idle queue takes any envelope the processor may hand on |
| IngestProtocol.GracefulStopLeavesNothing | src/STFCCommunityMod.Launcher.Core/BattleIngestHost.cs:656-681 | after a graceful stop no item is in flight, both counters are zero, and only committed entries are remembered |
| IngestHost.EndedCounters | src/STFCCommunityMod.Launcher.Core/BattleIngestHost.cs:656-681 | once the worker has ended and no handler holds an item, the counter is the number of writes that met an open channel after the worker's last look, and zero exactly when every later write met a completed one |
| IngestHost.NothingStranded | src/STFCCommunityMod.Launcher.Core/BattleIngestHost.cs:640-681 | nothing is stranded if the channel was completed when the worker ended, or if no handler could still write then and no request arrives after it |
| IngestHost.QueueIsInOrder | src/STFCCommunityMod.Launcher.Core/BattleIngestHost.cs:530-564 | first in, first out, and nothing lost: what entered is what was taken out and then what is still inside |
| IngestHost.CompletionsAreTrue | src/STFCCommunityMod.Launcher.Core/BattleIngestHost.cs:566-620 | in every reachable state a completion reports success exactly when the sink succeeded for that very item |
| IngestHost.CancelledDrainStrandsWork | src/STFCCommunityMod.Launcher.Core/BattleIngestHost.cs:664-678 | a concrete run in which a cancelled drain leaves a counted item |
| IngestHost.IngestHost.OldestCommitted | src/STFCCommunityMod.Launcher.Core/BattleIngestHost.cs:728-731 | finds the committed entry of the smallest sequence, or that there is none |
| IngestHost.IngestHost.PruneDedupe | src/STFCCommunityMod.Launcher.Core/BattleIngestHost.cs:724-738 | the loop forgets the same entries as the specification, oldest first |
| IngestHost.IngestHost.Arrive | src/STFCCommunityMod.Launcher.Core/BattleIngestHost.cs:450-478 | each of the four answers exactly by the retained entry's bytes and commitment, and enters exactly a new identity |
| IngestHost.IngestHost.TryReserve | src/STFCCommunityMod.Launcher.Core/BattleIngestHost.cs:545-557 | counts the item exactly when there is a place and room for its bytes |
| IngestHost.IngestHost.TryWrite | src/STFCCommunityMod.Launcher.Core/BattleIngestHost.cs:558-563 | the item enters the channel unless it was completed |
| IngestHost.IngestHost.ReleaseQueued | src/STFCCommunityMod.Launcher.Core/BattleIngestHost.cs:715-722 | gives back exactly this item's place and bytes |
| IngestHost.IngestHost.WithdrawEntry | src/STFCCommunityMod.Launcher.Core/BattleIngestHost.cs:480-492 | removes the refused item's own entry, which is always still its own |
| IngestHost.IngestHost.MarkCommitted | src/STFCCommunityMod.Launcher.Core/BattleIngestHost.cs:581-587 | the entry marked by identity alone is the succeeded item's own |
| IngestHost.IngestHost.RemoveFailedDedupe | src/STFCCommunityMod.Launcher.Core/BattleIngestHost.cs:707-713 | the entry removed by identity alone is the failed item's own |
| CaptureTables.ConflictStaysCoherent | src/STFCCommunityMod.Launcher.Core/BattleCaptureRepository.cs:649-704 | a recorded association conflict stays explained however the aliases grow |
| CaptureInvariant.ContestIsCoherent | src/STFCCommunityMod.Launcher.Core/BattleCaptureRepository.cs:1150-1188 | whatever makes an event contested is what the verifier later accepts as a coherent conflict |
| CaptureInvariant.JoinedAliases | src/STFCCommunityMod.Launcher.Core/BattleCaptureRepository.cs:1172-1188 | joining a battle inserts only aliases free in name and slot, so no uniqueness constraint can fire |
| CaptureInvariant.OpenedAliases | src/STFCCommunityMod.Launcher.Core/BattleCaptureRepository.cs:1163-1171 | opening a battle inserts only free aliases and gives the battle the alias its key is made from |
| CaptureInvariant.PersistingKeepsInv | src/STFCCommunityMod.Launcher.Core/BattleCaptureRepository.cs:968-1011 | persisting a capture keeps all tables coherent |
| CaptureReplay.CommitKeepsInv | src/STFCCommunityMod.Launcher.Core/BattleCaptureRepository.cs:244-327 | a commit keeps the invariant, only appends evidence and batches, and changes nothing unless it commits |
| CaptureReplay.BattlesHaveOneCanonicalCapture | src/STFCCommunityMod.Launcher.Core/BattleCaptureRepository.cs:777-887 | after any commits each battle has one canonical capture, its smallest evidence, and is in conflict exactly when it has another |
| CaptureReplay.BattlesAreDescribed | src/STFCCommunityMod.Launcher.Core/BattleCaptureRepository.cs:1137-1171 | after any commits a battle's namespace, key, time and type are those of its canonical capture |
| CaptureReplay.AliasesAreUniqueBothWays | src/STFCCommunityMod.Launcher.Core/BattleCaptureRepository.cs:1137-1188 | after any commits no alias name, no alias slot of a battle and no battle key occurs twice |
| CaptureReplay.RecordedConflictsStayCoherent | src/STFCCommunityMod.Launcher.Core/BattleCaptureRepository.cs:615-623 | a conflict recorded at any time is still coherent, and its evidence still unlinked, in every later store |
| CaptureReplay.BatchVerdict | src/STFCCommunityMod.Launcher.Core/BattleCaptureRepository.cs:494-704 | of all the verifier's checks only the attribution can fail for a stored batch |
| CaptureReplay.ExactReplay | src/STFCCommunityMod.Launcher.Core/BattleCaptureRepository.cs:244-293 | after any commits, replaying an accepted batch changes nothing and, unless its token is cancelled before the store is read, is accepted exactly when every event is stored with the attribution this envelope gives it |
| CaptureReplay.ReplayAnswers | src/STFCCommunityMod.Launcher.Core/BattleCaptureRepository.cs:574-578 | from the requests alone: an accepted batch presented again is accepted exactly when, for each event, the first accepted request that carried it gives it the same source, version and session |
| CaptureReplay.CommitAnswers | src/STFCCommunityMod.Launcher.Core/BattleCaptureRepository.cs:274-325 | over any earlier requests: committed and filed when no accepted one has the same namespace, source, session and batch id, a conflict exactly when one has all four and other bytes |
| CaptureReplay.CommitRefuses | src/STFCCommunityMod.Launcher.Core/BattleCaptureRepository.cs:219-271 | out of bounds, malformed or cancelled before that, each exactly when, and the tables unchanged |
| CaptureReplay.CommitCancels | src/STFCCommunityMod.Launcher.Core/BattleCaptureRepository.cs:264-309 | of well-formed events a commit is cancelled exactly by a look at the token that it makes |
| CaptureReplay.StoredByFirst | src/STFCCommunityMod.Launcher.Core/BattleCaptureRepository.cs:1119-1124 | every stored event is attributed by the first accepted request that carried it |
| CaptureReplay.ReceiptVerificationMeans | src/STFCCommunityMod.Launcher.Core/BattleCaptureRepository.cs:555-594 | on any tables a receipt passes exactly when its row is, column by column, the one this capture in this envelope makes |
| CaptureReplay.AssociationVerificationMeans | src/STFCCommunityMod.Launcher.Core/BattleCaptureRepository.cs:596-704 | on any tables an association verifies exactly when it is an explained conflict, or the one link to a battle with one canonical capture, its smallest evidence, and the event's names alone |
| CaptureReplay.ReplayIsSettled | src/STFCCommunityMod.Launcher.Core/BattleCaptureRepository.cs:276-293 | whether an accepted batch replays is settled by its own commit: no later commit changes the answer |
| CaptureReplay.SelfAttributedReplay | src/STFCCommunityMod.Launcher.Core/BattleCaptureRepository.cs:574-578 | events with their own source, session and version can always be replayed by a caller who does not cancel |
| CaptureReplay.ReplayCanBeRefused | src/STFCCommunityMod.Launcher.Core/BattleCaptureRepository.cs:1119-1124 | two concrete producers of one event, the second of which cannot replay its accepted batch |
| CaptureRepository.LateDisagreement | src/STFCCommunityMod.Launcher.Core/BattleCaptureRepository.cs:1172-1188 | a disagreement on the last alias means no earlier alias was missing |
| CaptureRepository.CaptureRepository.FindOrCreateBlob | src/STFCCommunityMod.Launcher.Core/BattleCaptureRepository.cs:1035-1086 | stores equal bytes once, and a stored blob always verifies |
| CaptureRepository.CaptureRepository.AdoptAliases | src/STFCCommunityMod.Launcher.Core/BattleCaptureRepository.cs:1172-1188 | the interleaved reads and inserts add exactly the missing aliases, or nothing at all when the event is contested |
| CaptureRepository.CaptureRepository.AssociateBattle | src/STFCCommunityMod.Launcher.Core/BattleCaptureRepository.cs:1137-1214 | the whole table effect; a contested event changes only its own state |
| CaptureRepository.CaptureRepository.PersistCapture | src/STFCCommunityMod.Launcher.Core/BattleCaptureRepository.cs:968-1011 | stores a capture or recognises it, and files its receipt; it never fails on a coherent store |
| CaptureRepository.CaptureRepository.VerifyExistingBatch | src/STFCCommunityMod.Launcher.Core/BattleCaptureRepository.cs:494-594 | passes exactly when every receipt verifies |
| CaptureRepository.CaptureRepository.BuildCaptures | src/STFCCommunityMod.Launcher.Core/BattleCaptureRepository.cs:261-271 | builds the captures in order and stops at the first malformed event or at a cancelled token, whichever it meets first |
| CaptureRepository.CaptureRepository.Commit | src/STFCCommunityMod.Launcher.Core/BattleCaptureRepository.cs:213-327 | the transaction's whole effect and answer, wherever on its way its token is first found cancelled, with nothing left of a cancelled one |
| IdentityEncoding.DecodeInvertsEncode | src/STFCCommunityMod.Launcher.Core/BattleCaptureRepository.cs:1754-1766 | an independent reader gets the parts back from the length-prefixed digest input |
| IdentityEncoding.EncodingIsInjective | src/STFCCommunityMod.Launcher.Core/BattleCaptureRepository.cs:1754-1766 | equal digest inputs mean equal parts |
| IdentityEncoding.AppendParts | src/STFCCommunityMod.Launcher.Core/BattleCaptureRepository.cs:1754-1766 | the loop feeds the encoding, and refuses exactly a part too long for its length field |
| ReleasePolicy.ComparisonIsPrecedence | src/STFCCommunityMod.Launcher.Core/AuthenticatedReleaseManifest.cs:767-793 | CompareTo is the precedence of section 11 of Semantic Versioning 2.0.0 and zero only for equal versions |
| ReleasePolicy.CanonicalListIsUnique | src/STFCCommunityMod.Launcher.Core/AuthenticatedReleaseManifest.cs:680-698 | a canonical withdrawal list is determined by what it withdraws |
| ReleasePolicy.OrderIsOrdinal | src/STFCCommunityMod.Launcher.Core/AuthenticatedReleaseManifest.cs:676-683 | kinds in the order of their names, values as text: ten before nine |
| ReleasePolicy.FirstAcceptance | src/STFCCommunityMod.Launcher.Core/AuthenticatedReleaseManifest.cs:404-481 | without a stored state a release is accepted exactly when verified evidence vouches for a manifest that publishes an upgrade of what is installed, in time, and does not withdraw itself |
| ReleasePolicy.LaterAcceptance | src/STFCCommunityMod.Launcher.Core/AuthenticatedReleaseManifest.cs:404-481 | over a stored state exactly when it also follows that state or repeats it with the same evidence, and the clock has not gone back a day |
| ReleasePolicy.AcceptanceRecords | src/STFCCommunityMod.Launcher.Core/AuthenticatedReleaseManifest.cs:464-481 | the state recorded is the release's own identity with observation times that only move forward |
| ReleasePolicy.PolicyImpliesStore | src/STFCCommunityMod.Launcher.Core/AuthenticatedReleaseManifest.cs:404-481 | whatever the policy accepts over a stored state is a valid state that the store accepts as an advance of it |
| ReleasePolicy.StoredStateMeans | src/STFCCommunityMod.Launcher.Core/AuthenticatedReleaseManifest.cs:659-698 | a stored state is taken exactly when its tag, version, channel, digests and times agree and its withdrawals are in canonical order without repeats |
| ReleasePolicy.AdvanceIsTransitive | src/STFCCommunityMod.Launcher.Core/AuthenticatedReleaseStateStore.cs:182-228 | the store's guard composes |
| ReleasePolicy.NothingRollsBack | src/STFCCommunityMod.Launcher.Core/AuthenticatedReleaseStateStore.cs:182-228 | over any run no floor drops, no sequence is rebound, a higher sequence means higher precedence, and withdrawals only grow |
| ReleasePolicy.SupersededStaysRejected | src/STFCCommunityMod.Launcher.Core/AuthenticatedReleaseManifest.cs:616-648 | a release below a sequence or version the store has held is refused ever after, with any evidence, clock or installed version |
| ReleasePolicy.ExpiredStaysRejected | src/STFCCommunityMod.Launcher.Core/AuthenticatedReleaseManifest.cs:454-458 | a manifest once observed expired is refused ever after, even when the local clock is set back |
| ReleasePolicy.WithdrawnStaysRejected | src/STFCCommunityMod.Launcher.Core/AuthenticatedReleaseManifest.cs:649-655 | a release once withdrawn by a stored state is refused ever after, in whatever manifest it comes |
| ReleaseSelection.OrderBySequence | src/STFCCommunityMod.Launcher.Core/AuthenticatedGitHubLauncherReleaseClient.cs:272-274 | every candidate once, ascending by sequence |
| ReleaseSelection.SuccessionMeans | src/STFCCommunityMod.Launcher.Core/AuthenticatedGitHubLauncherReleaseClient.cs:279-286 | one candidate follows another exactly with higher sequence and precedence, no earlier issue time and all its withdrawals |
| ReleaseSelection.Select | src/STFCCommunityMod.Launcher.Core/AuthenticatedGitHubLauncherReleaseClient.cs:272-291 | the adjacent checks choose exactly when any two candidates are ordered consistently, and then the chosen one advances all others |
| ReleaseSelection.SelectionDominates | src/STFCCommunityMod.Launcher.Core/AuthenticatedReleaseManifest.cs:459-462 | the chosen release has strictly the highest sequence and precedence, carries all withdrawals of candidates and stored state, and is withdrawn by none |
| ReleaseStore.ReleaseStateStore.LoadDocument | src/STFCCommunityMod.Launcher.Core/AuthenticatedReleaseStateStore.cs:63-137 | reads what was last written; a missing primary beside a backup is refused |
| ReleaseStore.ReleaseStateStore.WriteAtomically | src/STFCCommunityMod.Launcher.Core/AuthenticatedReleaseStateStore.cs:139-180 | wherever it fails or stops, the primary is the old document or the new one, and a replaced one is kept as the backup |
| ReleaseStore.ReleaseStateStore.Advance | src/STFCCommunityMod.Launcher.Core/AuthenticatedReleaseStateStore.cs:36-61 | replaces one channel's state exactly for a valid advance and keeps every channel's history a chain |
| ReleaseStore.AcceptedOffersAreKept | src/STFCCommunityMod.Launcher.Core/AuthenticatedGitHubLauncherReleaseClient.cs:216-246 | no offer the policy accepts, with the tag it was found under, the channel and an archive, is passed over |
| ReleaseStore.ReleaseStateStore.Discover | src/STFCCommunityMod.Launcher.Core/AuthenticatedGitHubLauncherReleaseClient.cs:172-307 | without disk failures it succeeds exactly when the accepted candidates tell one history; what it finds is an upgrade that one of the offers carries, strictly after every other accepted offer that fits |
| CommandLine.Quote | scripts/next/windows-journal-ci.cs:697-703 | refuses exactly NUL and line breaks, and otherwise writes the escaped argument |
| CommandLine.QuotingRoundTrips | scripts/next/windows-journal-ci.cs:704-712 | parsing the space-joined quoted arguments by the Windows rules returns the arguments, for any runs of backslashes and quotes and both variants of the double-quote rule |
| CommandLine.ProgramNameRoundTrip | scripts/next/windows-journal-ci.cs:712 | the program name's own rule gives it back exactly when it has no quote and no final backslash |
| CommandLine.CommandLineRoundTrips | scripts/next/windows-journal-ci.cs:704-712 | the whole line, application and arguments joined, splits back into both exactly when the application's path has no quote and no final backslash |
| AclGrant.AclBytes | scripts/next/windows-journal-ci.cs:472-478 | accepts exactly well-formed lists, reading within bounds, and tells empty from populated |
| AclGrant.ListsAreBuilt | scripts/next/windows-journal-ci.cs:472-478 | a list is accepted exactly when it is a true header, well-formed entries laid one after the other and unused bytes, and then those are its entries |
| AclGrant.IdentifiersAre | scripts/next/windows-journal-ci.cs:401 | the user identifiers taken are those of revision one whose length tells their one to fifteen sub-authorities |
| AclGrant.GrantFields | scripts/next/windows-journal-ci.cs:407 | the field-by-field comparison is equality with the explicit full grant |
| AclGrant.UserDefaultDacl | scripts/next/windows-journal-ci.cs:399-417 | answers fresh bytes equal to the specified list or refuses exactly as specified; its closing check never refuses |
| AclGrant.GrantKeepsEntries | scripts/next/windows-journal-ci.cs:399-417 | all entries stay in order, at most the one grant is added, it is present, and the result is accepted |
| AclGrant.GrantIsIdempotent | scripts/next/windows-journal-ci.cs:405-407 | applying it twice is applying it once |
| AclGrant.GrantRefusedOnlyWhenFull | scripts/next/windows-journal-ci.cs:410-411 | a populated list without the grant is refused exactly at 128 entries or without enough bytes |
| AclGrant.RangeIsContainment | scripts/next/windows-journal-ci.cs:465-469 | the wrapping pointer checks hold exactly when the bytes lie in the returned buffer and nothing overflows |
| RuntimeComposition.AtMostOneLiveHost | src/STFCCommunityMod.Launcher.Core/BattleRuntimeComposition.cs:195-227 | at no point of any history is more than one host live, and its lease is open |
| RuntimeComposition.OpenedIsOpenOrDisposed | src/STFCCommunityMod.Launcher.Core/BattleRuntimeComposition.cs:351-382 | every opened lease is disposed or still held |
| RuntimeComposition.DisposedLeaseHasNoHost | src/STFCCommunityMod.Launcher.Core/BattleRuntimeComposition.cs:297-338 | from the moment a lease is disposed no host on it is live |
| RuntimeComposition.Coordinator.StopCurrent | src/STFCCommunityMod.Launcher.Core/BattleRuntimeComposition.cs:297-349 | stops host then lease, and holds on to what refuses to go |
| RuntimeComposition.Coordinator.CleanupFailedStart | src/STFCCommunityMod.Launcher.Core/BattleRuntimeComposition.cs:351-382 | what a failed start leaves is disposed or held |
| RuntimeComposition.Coordinator.Recompose | src/STFCCommunityMod.Launcher.Core/BattleRuntimeComposition.cs:161-272 | a token found cancelled at the gate, before anything else is looked at, or just before the stop leaves everything as it was, and so does asking for the kinds already running; whatever fails later, the fields account for everything live and open and the state tells the truth; without failures the requested kinds run |
| RuntimeComposition.Coordinator.Dispose | src/STFCCommunityMod.Launcher.Core/BattleRuntimeComposition.cs:274-295 | Disposed means nothing live and nothing open; a failure can be retried and nothing starts meanwhile |
| RuntimeComposition.Serve | src/STFCCommunityMod.Launcher.Core/BattleRuntimeComposition.cs:161-382 | the ownership rules hold over any schedule of requests with any failures |

## Left out

- LifecycleOperations.BattleLifecycle.Prepare: does not model the runtime-lock store's own checks, because BattleRuntimeLockStore is not part of this model; the lock is a record that is created, matched and deleted. It asks for a marker whose candidates all have contents, which ActivationPreparation.CreatedIsRecoverable shows of every marker the preparer builds.
- LifecycleOperations.BattleLifecycle.Advance: asks for a marker that binds a configuration, because every procedure modelled here has checked that before it advances one.
- LifecycleOperations.BattleLifecycle.RollbackCredential: asks that the configuration and preferences are before, because the compensation that calls it has just restored them or stopped.
- ActivationPreparation.CandidateExactly: the TOML reader and editor are functions of which it is known that an edit changes the assignment it names and no other; pipe-name and path spelling and the other targets' own diagnostics are not modelled beyond one predicate.
- LifecycleOperations.BattleLifecycle.PrepareVerifiedBackup: the backup store is an immutable file under a fresh id that reads back as written, because ProviderScopedConfigurationBackupStore is not part of this model.
- LifecycleOperations.BattleLifecycle.SavePreferences: the preferences store is a truthful compare-and-swap, because its code is not part of this model.
- LifecycleOperations.BattleLifecycle.SaveDocument: does not model temporary files and path gates of the TOML store; a save takes effect whole or not at all.
- EnvelopeProcessor.EnvelopeProcessor.ParseRequest: nested parses of one request read the same clock value; lock bodies of other requests may interleave only as steps of ChunkReassembly.
- Battle lifecycle: torn single-file writes, outside writers, file-handle sharing and delete-on-close are not modelled; a file operation takes effect or reports that it did not. Cancellation counts as such a failure. Installation evidence is one boolean.
- Battle lifecycle: lexical rules for tokens, hexadecimal, paths and timestamps, and the Failed stage, which no modelled procedure writes.
- Chunk groups are values replaced in the dictionary, not shared objects; nothing else holds a reference to one.
- JSON, TOML, Brotli and DPAPI are functions of bytes; SHA-256 digests are the contents they stand for.
- The Battle repository's columns that are constants, its read queries and its schema migration; SQLite failures inside the transaction, which roll back like a cancellation.
- The ingest host's HTTP handling, rate window, authorization, health snapshots and response writing.
- Release verification itself: signature, transparency-log and receipt fields that are compared with constants are one boolean each; downloads and evidence directories are not modelled.
- The 32767-character command bound, process creation, token queries and security-descriptor checks of the CI launcher.
- Named-pipe hosting, credential codecs, fixtures and user interface, which would add only easy members.
