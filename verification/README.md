# RouteLedger: verified models of its storage protocols

RouteLedger keeps a project ledger as canonical JSON documents in a directory, with an optional SQLite read model, an
audit layout and a local authority for sensitive operations. Its hard parts are protocols: what is on disk after a
crash, who holds a lock, which write wins, what a compacted layout expands to. This project models those protocols in
Dafny 4.11 and proves their laws for all inputs, all runs and all crash points. `dafny verify dfyconfig.toml` checks
everything.

## Components

| Files | What they model |
|---|---|
| `CanonicalReplacement.dfy`, `CanonicalStore.dfy` | the multi-rename replacement of the canonical entries and its recovery, with a crash possible before every step and inside every recursive copy or removal |
| `WriterLock.dfy` | the lease-and-marker write lock, as a state machine of holders and reapers |
| `StateFileTransactions.dfy`, `AuthorityState.dfy`, `AuthorityRuns.dfy`, `AuthorizationLifecycle.dfy` | the fenced state file under arbitrary lock theft, and on top of it the decision budget, policy activation and the life of an exact authorization |
| `ProfileRegistry.dfy` | compare-and-swap installation and migration of authorization profiles |
| `AuditLayout.dfy`, `AuditLayoutProofs.dfy`, `AuditStorage.dfy`, `AuditReading.dfy`, `AuditPacking.dfy`, `AuditDisk.dfy`, `AuditRoot.dfy` | operation envelopes and closed-version packs, their expansion, and a root over its life on the crash-safe store |
| `HeadRevision.dfy`, `JsonFirstStorage.dfy` | optimistic concurrency by head hash on top of that root, for calls one after the other |
| `OverlappingCalls.dfy`, `OverlappingRuns.dfy`, `OverlappingStorage.dfy` | unlocked loads and compactions and locked saves whose steps interleave on one root: what every run keeps, what goes wrong, and exactly when |
| `CacheCoherence.dfy` | coherence of the SQLite read model under overlapping loads, torn ones included |
| `VersionGraph.dfy`, `VersionGraphProofs.dfy`, `VersionValidator.dfy` | the version checks of the document validator |
| `JsonKeys.dfy`, `JsonOrder.dfy`, `JsonPayloads.dfy`, `JsonReencoding.dfy`, `DigestPayloads.dfy` | key transforms, key order, the round trip and the re-encoding of free-form payloads, and the completion of gate snapshots in digests |
| `DocumentPaths.dfy`, `ApprovalCodec.dfy`, `AggregateCodec.dfy`, `AggregateRoundTrip.dfy`, `MergeCheck.dfy` | canonical paths, the aggregate codec and the merge check |
| `SchemaValidation.dfy`, `SchemaKeywords.dfy`, `CompositeTool.dfy` | the JSON Schema subset of the tool boundary and composite dispatch |
| `CompactProjection.dfy` | the compact projection of tool responses |
| `JsonValues.dfy`, `Sorting.dfy`, `Wrappers.dfy` | JSON values, sorting and result types used by the others |

Code that changes state step by step is a class whose methods carry the property in their `ensures`; protocols of
several processes are state machines over their file-system steps; pure code is functions and lemmas.

## What the proofs found

Some laws one would expect do not hold of the code as it is written. Each is proved with its exact condition.

- Removing the replacement directory with one recursive removal is safe exactly when the manifest goes before what it
  protects: for `backup_created` anything of the backup, for `staged` anything below one of its entries, since recovery
  copies every entry it still finds (`ClearOrderIsSafeExactly`, `TornBackupOverwrites`). `fs.rm` promises no order.
- A crash can make recovery impossible although the backup is whole: reading comes before the manifest is looked at, and
  a half-copied envelope or pack makes it throw. It cannot happen exactly when no container can be found half-written
  (`RecoveryIsNeverRefusedExactly`, `HalfWrittenContainerBlocksRecovery`).
- The storage adapter looks for `project.json` before anything recovers an unfinished replacement, and that file is the
  first to move to the backup. A load then finds no project, and a save with a null head overwrites what the replacement
  would have recovered. A save replaces the set its head stands for, in every case, exactly when the file is in place or
  recovery brings nothing back (`SavesAreSafeExactly`, `OutOfSightExactly`, `FirstRenameHidesSource`).
- Loads and compactions take no lock; they look for one before each recovery and then act. A load that looked too early
  can remove the backup of a replacement under way: the writer reports success, and neither the old nor the new set is
  left (`RecoveryDestroysReplacement`). Two recoveries after a crash can do the same to each other without any writer
  (`RecoveriesDestroyTree`), and a load can return whatever part of the new set has been moved in
  (`LoadReturnsTornSet`). All runs leave everything intact exactly when a call that another has overtaken since its check
  takes no further step, or everyone takes the lock, or nobody writes, or there is one client (`IntactExactly`).
- Even then a compaction undoes a save: it reads, the save commits and is told its head, and the compaction, which finds no
  lock by then, writes the old documents back (`CompactionUndoesSave`). A save likewise drops a pack that a compaction
  commits after its look-up (`SaveDropsPack`). All commits are serial exactly when all writers take the lock, or there is
  one (`SerialExactly`); no save is undone exactly when none falls between what a commit has read and that commit
  (`SavesAreKeptExactly`), and no pack is lost exactly when none is added there (`PacksAreKeptExactly`).
- What a load has read is stored in SQLite. The read model stays coherent in every interleaving exactly when no reading
  returns a set that differs from the committed one and is as fresh, or has another project id; such a set, once stored,
  makes every later load fail (`RunsStayCoherentExactly`, `StoredSetBlocksExactly`).
- The write lock is exclusive in every run exactly when no lock directory with unreadable metadata was left over: that
  path of the reaper has no marker that only one reaper can take (`ExclusionExactly`).
- The staging check of a replacement compares only the number of documents. It catches exactly the case of two
  operations sharing an envelope file (`CountCheckIsExact`); it does not notice that containers store values and not
  texts, so a non-canonical enveloped document comes back reformatted (`RoundTripIsExact`).
- A replacement looks up the layout marker and the packs before it recovers an unfinished one. Packs are kept exactly
  when the marker and all of them are in the root at that moment (`PacksSurviveExactly`, `RunKeepsPacksExactly`); a crash
  in the backup phase hides the marker, one in the apply phase the packs (`MarkerMovedAwayHidesPacks`,
  `MarkerMovedInHidesPacks`). A save that has loaded its source has recovered it, and keeps them.
- A closed-version pack tears an operation apart exactly when one of its events names the operation only below the top
  level and another does not (`WholeOperationsExactly`, with `NestedOperationIdIsTornApart` as the instance).
- A load that a save overtakes after its reading is refused although nothing is wrong, or puts the read model back to an
  older commit (`OnlyStaleLoadsAreRefused`, `RebuildRegressesExactly`).
- Payload keys survive the trip through snake case exactly when they are camel case in a precise sense
  (`KeyRoundTripExactly`, `PayloadRoundTripExactly`).
- The merge check reports a document set that the codec itself has just written: at every event, pending operation and
  approval artifact whose metadata or digest payload has a key like `a_b_c`, which is read back as `aBC` and written as
  `a_bc`, and at every digest whose gate snapshot lacks the lists that reading adds (`ReencodingIsFixpointExactly`,
  `MismatchExactly`, `OldGateGainsLists`).
- A policy activation outlasts itself only while no runtime that was loaded before it commits another decision: nothing
  compares the digest of a request with the active policy (`RunStaysFreshExactly`).
- Consuming an authorization for an artifact that has a receipt replaces that receipt, a committed one too
  (`CommittedStaysExactly`).
- An approval artifact keeps its provenance exactly when it has an authorization id to hang it on
  (`ApprovalRoundTripExactly`).
- A branch of a composite tool that declares an optional `operation` of its own overrides the selector. A validated input
  reaches the unknown-operation error exactly when its `operation` names no branch (`Call`).
- The compact projection loses a field called `__proto__` without a note; with nothing noted it is otherwise faithful
  (`ProjectCompactValue`).

## Model

| member | source | states |
|---|---|---|
| `CanonicalStore.CanonicalStore.ClearReplacementDirectory` | packages/json/src/filesystem.ts:682-684 | a finished clear leaves no replacement directory; an interrupted one, torn entries included, leaves a part from which recovery still works as long as the manifest went before what it protects |
| `CanonicalStore.CanonicalStore.MoveExistingCanonicalEntriesToBackup` | packages/json/src/filesystem.ts:686-716 | at every crash point each old entry is in exactly one of root and backup; at the end all are in the backup |
| `CanonicalStore.CanonicalStore.MoveReplacementEntriesIntoCanonicalRoot` | packages/json/src/filesystem.ts:718-747 | at every crash point the backup still recovers; at the end the root holds the new entries |
| `CanonicalStore.CanonicalStore.RestoreCanonicalEntriesFromBackup` | packages/json/src/filesystem.ts:749-790 | a finished restore replaces the selected entries by their backups; a crash, also in the middle of a recursive removal or copy, leaves only parts of what was there or only parts of the backup |
| `CanonicalStore.CanonicalStore.StageReplacement` | packages/json/src/filesystem.ts:823-852 | staging completes only for a valid set of canonical names, and then `next` holds exactly that set |
| `CanonicalStore.CanonicalStore.BeginReplacement` | packages/json/src/filesystem.ts:1252-1275 | an earlier run is recovered first; the transaction starts from the durable entries under a `staged` manifest |
| `CanonicalStore.CanonicalStore.SwapInReplacement` | packages/json/src/filesystem.ts:1277-1289 | the durable entries change to the new ones exactly when the `applied` manifest is written |
| `CanonicalStore.CanonicalStore.Apply` | packages/json/src/filesystem.ts:1252-1299 | whatever crash point ends it, torn trees included, the store stays recoverable to exactly the old or exactly the new entries, and other names are untouched; undisturbed, it completes unless the documents are refused or recovery is |
| `CanonicalStore.CanonicalStore.Recover` | packages/json/src/filesystem.ts:1094-1209 | a completed recovery leaves exactly the durable entries, an interrupted one keeps them recoverable, and one is refused exactly when what lies in the root cannot be read |
| `CanonicalReplacement.RecoveredIsDurable` | packages/json/src/filesystem.ts:1094-1209 | recovery of every recoverable disk gives the durable entries, is idempotent and leaves foreign names alone |
| `CanonicalReplacement.RecoveryByEntries` | packages/json/src/filesystem.ts:1094-1209 | on any disk, entry by entry: which state of the manifest and of the root takes which entries from the backup, what stays, and when recovery is refused |
| `CanonicalReplacement.RunKeepsForeignNames` | packages/json/src/filesystem.ts:143-161 | over any run of replacements and recoveries, names outside the canonical list never change and durable entries come from the start or a replacement |
| `CanonicalReplacement.CrashAtomicity` | packages/json/src/filesystem.ts:1252-1299 | a replacement interrupted anywhere, then any number of interrupted recoveries: the first recovery that completes leaves exactly the old or exactly the new entries |
| `CanonicalReplacement.RecoveryIsNeverRefused` | packages/json/src/filesystem.ts:1094-1209 | in a run whose document sets can be read in part, every recovery that is not interrupted completes |
| `CanonicalReplacement.NeverRefusedExactly` | packages/json/src/filesystem.ts:806-821 | no crash makes recovery impossible if and only if every part of the old and of the new tree can be read |
| `CanonicalReplacement.ClearOrderIsSafeExactly` | packages/json/src/filesystem.ts:682-684 | for `backup_created` and `staged` transactions, every crash point of a file-by-file clear recovers if and only if the manifest goes before everything it protects |
| `CanonicalReplacement.TornBackupOverwrites` | packages/json/src/filesystem.ts:1193-1200 | a staged transaction whose backup entry was half removed: recovery overwrites the restored entry with the rest |
| `WriterLock.RunsAreExclusive` | packages/json/src/filesystem.ts:869-954 | with fail-stop leases and no corrupt lock, every run has at most one unexpired holder, whose metadata is on disk, and no lock id is reaped twice |
| `WriterLock.RunKeepsInv` | packages/json/src/filesystem.ts:992-1092 | acquisition, renewal, release and reaping keep the lock invariant in every interleaving |
| `WriterLock.DoubleReapBreaksExclusion` | packages/json/src/filesystem.ts:869-954 | from a corrupt lock directory two reapers can remove two different locks, so two holders coexist |
| `WriterLock.ExclusionExactly` | packages/json/src/filesystem.ts:869-1092 | the lock is exclusive in all runs if and only if no lock directory without readable metadata was left over |
| `WriterLock.FreeLockIsAcquired` | packages/json/src/filesystem.ts:992-1045 | on a free lock anyone idle becomes the holder, exactly for as long as its lease says, and nobody else can acquire |
| `WriterLock.ReleaseFreesLock` | packages/json/src/filesystem.ts:1076-1089 | a release that nothing interrupts removes the lock, and any idle flow may then acquire it |
| `WriterLock.OthersLockIsLeftAlone` | packages/json/src/filesystem.ts:1083-1087 | a release and a renewal that find another owner's metadata change nothing on disk |
| `WriterLock.RenewalExtendsLease` | packages/json/src/filesystem.ts:1063-1075 | after an undisturbed renewal the holder keeps lock id and owner and the lease runs from the new stamp |
| `WriterLock.ReaperFreesExpiredLock` | packages/json/src/filesystem.ts:869-923 | an undisturbed reaper of an expired lock with its marker removes the directory, and that lock id counts as reaped |
| `WriterLock.LiveLockIsNotReaped` | packages/json/src/filesystem.ts:877-882 | reaping starts exactly once the lease has run out, or for a directory without metadata 30 seconds after its last change |
| `WriterLock.ReaperGivesUp` | packages/json/src/filesystem.ts:890-921 | a reaper that finds other metadata leaves the lock alone, and puts a claimed marker back |
| `WriterLock.TakenMarkerStopsReaper` | packages/json/src/filesystem.ts:900-908 | a reaper that finds the marker gone leaves the lock alone |
| `WriterLock.CorruptLockIsReaped` | packages/json/src/filesystem.ts:931-954 | a directory without metadata that is old enough is removed by an undisturbed reaper |
| `WriterLock.MetadataSavesCorruptLock` | packages/json/src/filesystem.ts:945-950 | if metadata turns up before the removal, the reaper only takes its claim back |
| `StateFileTransactions.RunsAreSerializable` | packages/mcp/src/local-l3-authorization.ts:687-850 | whatever happens to the lock, the file is the serial composition of the committed mutators in commit order, the revision counts them, and every answer is right at its place in that order |
| `StateFileTransactions.WriteKeepsInv` | packages/mcp/src/local-l3-authorization.ts:690-708 | a write lands on the very state its transaction read |
| `StateFileTransactions.RereadKeepsInv` | packages/mcp/src/local-l3-authorization.ts:697-702 | a no-change transaction answers from a state that is still current at its re-read |
| `StateFileTransactions.UndisturbedTransactionCommits` | packages/mcp/src/local-l3-authorization.ts:687-711 | on a free lock, a mutator that changes the data has its result written under the next revision, its caller told, and the lock freed |
| `StateFileTransactions.UndisturbedTransactionAnswers` | packages/mcp/src/local-l3-authorization.ts:702-711 | one that changes nothing writes nothing, has its caller told, and the lock freed |
| `StateFileTransactions.ThrowingTransactionDoesNothing` | packages/mcp/src/local-l3-authorization.ts:690-711 | one that throws leaves file and answers as they are, and the lock free |
| `StateFileTransactions.FailedTransactionFreesLock` | packages/mcp/src/local-l3-authorization.ts:709-711 | an error at any point frees the lock, if it is still the flow's own, and changes nothing else |
| `StateFileTransactions.DeprivedTransactionDoesNothing` | packages/mcp/src/local-l3-authorization.ts:697-706 | a flow whose lock was taken away before an ownership check writes nothing, answers nothing, and leaves the lock to its new owner |
| `StateFileTransactions.OvertakenTransactionDoesNothing` | packages/mcp/src/local-l3-authorization.ts:698-701 | a flow that finds another revision than it read writes nothing and answers nothing |
| `StateFileTransactions.DeadOwnersLockIsTakenAway` | packages/mcp/src/local-l3-authorization.ts:803-817 | a process that dies leaves its lock behind, and anyone may take it away |
| `AuthorityState.AuthorityDraft.RequestExactDecision` | packages/mcp/src/local-l3-authorization.ts:1224-1242 | a replay or denial changes nothing; a change is exactly one decision within the budget together with exactly one authorization, and nothing else |
| `AuthorityState.AuthorityDraft.ActivatePolicy` | packages/mcp/src/local-l3-authorization.ts:609-685 | the loops of activation compute the activation function; by fields: a claimed receipt of the issuer under another identity refuses it, and otherwise exactly the active authorizations, unclaimed receipts and grants under another identity or digest are revoked, other issuers untouched |
| `AuthorityState.ActivationRevokesExactlyStale` | packages/mcp/src/local-l3-authorization.ts:609-685 | activation revokes every usable stale record of the issuer and nothing else; it fails exactly on a claimed stale receipt |
| `AuthorityState.ActivationByFields` | packages/mcp/src/local-l3-authorization.ts:615-684 | the same for the activation function, over the provenance and grant fields of every record, with what is put in force |
| `AuthorityState.ActivationIsIdempotent` | packages/mcp/src/local-l3-authorization.ts:609-711 | activating the same identity again, at any later time, changes nothing |
| `AuthorityRuns.CommandKeepsBudget` | packages/core/src/application/exact-authorization-store.ts:202-390 | every command of the store and of the authority keeps the budget laws |
| `AuthorityRuns.BudgetIsConservedInEveryRun` | packages/mcp/src/local-l3-authorization.ts:1223-1242 | in every interleaving decisions stay within each rule's budget and their sum per digest is the number of authorizations issued under it |
| `AuthorityRuns.OneDecisionPerProposal` | packages/mcp/src/local-l3-authorization.ts:1394-1413 | of all requests for one authorization id at most one is ever committed |
| `AuthorityRuns.RepeatedActivationNeverCommits` | packages/mcp/src/local-l3-authorization.ts:687-711 | the same activation twice in a row raises the revision at most once |
| `AuthorityRuns.ActivationMakesFresh` | packages/mcp/src/local-l3-authorization.ts:609-685 | after a committed activation nothing usable of that issuer carries stale provenance |
| `AuthorityRuns.RunStaysFreshExactly` | packages/mcp/src/local-l3-authorization.ts:1224-1242 | in every interleaving the state stays like that at every commit if and only if no decision with stale provenance is committed afterwards |
| `AuthorizationLifecycle.DecisionExactly` | packages/mcp/src/local-l3-authorization.ts:1224-1242 | a decision is granted exactly while the rule's budget is unchanged and not spent, and an earlier answer is repeated for good |
| `AuthorizationLifecycle.ValidCandidateExactly` | packages/core/src/application/exact-authorization-store.ts:90-114 | a candidate is accepted exactly when its texts are not blank, it expires after its creation, and its profile fields are all there or none |
| `AuthorizationLifecycle.IssueExactly` | packages/core/src/application/exact-authorization-store.ts:202-215 | an authorization is issued once; the same again changes nothing and another under its id is refused |
| `AuthorizationLifecycle.ConsumptionExactly` | packages/core/src/application/exact-authorization-store.ts:246-291 | an authorization is consumed exactly when it is active, bound to the request and not expired; a repeat is answered from the record; each refusal has its cause and changes nothing |
| `AuthorizationLifecycle.ClaimExactly` | packages/core/src/application/exact-authorization-store.ts:298-322 | a receipt is claimed exactly when nobody has claimed it, and the claimant gets the same answer again |
| `AuthorizationLifecycle.FinalizeExactly` | packages/core/src/application/exact-authorization-store.ts:324-348 | a receipt is committed exactly by its claimant, once |
| `AuthorizationLifecycle.RevocationExactly` | packages/core/src/application/exact-authorization-store.ts:350-370 | a revocation takes effect exactly on an active authorization or an unclaimed receipt |
| `AuthorizationLifecycle.ProfileRevocationExactly` | packages/core/src/application/exact-authorization-store.ts:372-390 | exactly the unclaimed receipts of earlier epochs of the profile are revoked, and counted |
| `AuthorizationLifecycle.ConsumedOnce` | packages/core/src/application/exact-authorization-store.ts:246-291 | in every interleaving an authorization is consumed at most once |
| `AuthorizationLifecycle.CommittedWasClaimed` | packages/core/src/application/exact-authorization-store.ts:246-348 | in every interleaving a committed receipt was consumed in time from an active authorization with its very terms, then claimed, then committed by the claimant |
| `AuthorizationLifecycle.CommittedStaysExactly` | packages/core/src/application/exact-authorization-store.ts:286-291 | a committed receipt stays unless another authorization is consumed for its artifact, which replaces it |
| `ProfileRegistry.ProfileStore.ReadAndMigrateProfile` | packages/mcp/src/local-l3-authority-registry.ts:178-233 | fails exactly when the stored profile is invalid or its digest wrong, and then writes nothing; a version 2 profile is replaced by its migration before use |
| `ProfileRegistry.ProfileStore.Install` | packages/mcp/src/local-l3-authority-registry.ts:361-422 | succeeds if and only if binding, validity and the compare-and-swap rules hold against the profile in force, and each error has its one cause; a refusal writes nothing but a due migration |
| `ProfileRegistry.StepKeepsInv` | packages/mcp/src/local-l3-authority-registry.ts:296-320 | the binding lock makes what an installer has read stay true until it writes, in every interleaving and with installers that die |
| `ProfileRegistry.RunsKeepHistory` | packages/mcp/src/local-l3-authority-registry.ts:383-420 | at most one installer expecting a revision succeeds, revisions rise by one, epochs never fall and move with an installation exactly when the authorization semantics change, and one epoch means one semantics |
| `ProfileRegistry.UndisturbedInstallation` | packages/mcp/src/local-l3-authority-registry.ts:296-422 | an installer that finds the binding lock free writes a due migration, writes the new profile exactly if it may replace the one in force, and frees the lock |
| `ProfileRegistry.MigrationIsFinal` | packages/mcp/src/local-l3-authority-registry.ts:178-233 | a migration keeps binding and metadata, moves revision and epoch by one, and is done once |
| `ProfileRegistry.DeadInstallerKeepsLock` | packages/mcp/src/local-l3-authority-registry.ts:296-320 | an installer that dies leaves its lock directory, and nobody gets past it |
| `ProfileRegistry.CanonicalMeansContent` | packages/mcp/src/local-l3-authority-registry.ts:322-330 | the comparison of profile semantics is equality of content in whatever key order |
| `AuditStorage.BuildAuditPhysicalDocuments` | packages/json/src/audit-storage.ts:130-178 | fails exactly when a packed document is missing or changed; otherwise yields loose files, the marker, one envelope per operation and the packs |
| `AuditReading.ReadCanonicalDocuments` | packages/json/src/filesystem.ts:326-407 | succeeds exactly when all containers are valid and no path is held twice, and then returns every held document once, in path order |
| `AuditReading.ReadAuditPacks` | packages/json/src/audit-storage.ts:309-351 | succeeds exactly when every pack file is valid, and returns each pack once |
| `AuditLayoutProofs.LayoutHoldsPathsOnce` | packages/json/src/filesystem.ts:388-398 | no compact layout trips the duplicate-path check, even when envelopes overwrite each other |
| `AuditLayoutProofs.LayoutHoldsExactly` | packages/json/src/audit-storage.ts:275-307 | a layout expands to the stored form of exactly the documents whose envelope was not overwritten |
| `AuditLayoutProofs.CountCheckIsExact` | packages/json/src/filesystem.ts:839-851 | the staged count matches if and only if no two operations share an envelope file |
| `AuditLayoutProofs.RoundTripIsExact` | packages/json/src/audit-storage.ts:111-178 | a staged layout reads back as exactly the given documents if and only if every enveloped or packed one is canonical text |
| `AuditPacking.CreateClosedVersionAuditPack` | packages/json/src/audit-storage.ts:185-257 | the loops select exactly, by payload fields: events and receipts of operations with an event on the version or one of its records, pending operations on the version, artifacts of those or on the version, and nothing else; malformed JSON throws |
| `AuditPacking.SelectionByFields` | packages/json/src/audit-storage.ts:194-242 | the selection by computed id sets is the selection by payload fields |
| `AuditPacking.MemberIsSelectedExactly` | packages/json/src/audit-storage.ts:223-242 | an event or receipt of an operation is packed exactly when the operation is selected and the document is plain |
| `AuditPacking.WholeOperationsExactly` | packages/json/src/audit-storage.ts:223-242 | packing takes whole operations if and only if no selected operation mixes plain and nested-id documents |
| `AuditPacking.NestedOperationIdIsTornApart` | packages/json/src/audit-storage.ts:87-109 | an event with a nested operation id stays behind while its sibling is packed |
| `AuditRoot.AuditRoot.Replace` | packages/json/src/filesystem.ts:1301-1343 | on a root with or without an unfinished replacement: what is committed is exactly the given documents, in stored form inside containers, with the packs seen before recovery; packs are kept if and only if marker and packs were in sight; canonical documents are refused only for a stated cause |
| `AuditRoot.AuditRoot.CompactAudit` | packages/json/src/filesystem.ts:1345-1408 | undisturbed, compaction recovers first, keeps the logical documents and all packs, a new pack takes exactly the selected unpacked documents, and a valid canonical root with distinct envelope files is never refused |
| `AuditRoot.AuditRoot.Run` | packages/json/src/filesystem.ts:1301-1408 | any sequence of reads, replacements and compactions, one after the other, each of which may die at any step, is a log of committed steps |
| `AuditRoot.RunKeepsPacksExactly` | packages/json/src/filesystem.ts:1314-1336 | in every run of calls one after the other, no step loses or changes a pack if and only if every committing replacement had the packs in sight before it recovered |
| `AuditRoot.CompactionKeepsReadsExactly` | packages/json/src/filesystem.ts:367-399 | compaction leaves what is read, and so the head, unchanged if and only if all that it puts into containers is canonical text |
| `AuditDisk.SameHoldingsReadTheSame` | packages/json/src/filesystem.ts:367-399 | two roots with the same holdings read back as the same sequence |
| `AuditDisk.PacksSurviveExactly` | packages/json/src/filesystem.ts:1314-1336 | a replacement keeps the packs if and only if the layout marker and every pack are in the root it looks at |
| `AuditDisk.RecoveredRootIsInSight` | packages/json/src/filesystem.ts:1421-1428 | on a root that has just been recovered, marker and packs are in sight |
| `AuditDisk.MarkerMovedAwayHidesPacks` | packages/json/src/filesystem.ts:1314-1316 | after a crash in the backup phase the packs are in the root, the marker is not, and the next replacement drops them |
| `AuditDisk.MarkerMovedInHidesPacks` | packages/json/src/filesystem.ts:1318-1327 | after a crash in the apply phase the marker is in the root, the packs are not, and the immutability check sees none |
| `AuditDisk.SomeCrashHidesPacks` | packages/json/src/filesystem.ts:143-161 | for every root with packs, one crash in the backup phase hides them from the next replacement |
| `AuditDisk.RecoveryIsNeverRefusedExactly` | packages/json/src/filesystem.ts:806-821 | no crash makes recovery impossible if and only if no envelope and no pack of the old or the new tree can be found half-written |
| `AuditDisk.HalfWrittenContainerBlocksRecovery` | packages/json/src/filesystem.ts:1119-1122 | with a half-copied container in the root every recovery is refused, although the backup is whole |
| `HeadRevision.HeadTextReadsBackExactly` | packages/mcp/src/json-first-storage.ts:976-987 | the hashed text determines the documents through a decoder if and only if no path has a newline and no content a line of three dashes |
| `HeadRevision.HeadNamesOneSet` | packages/mcp/src/json-first-storage.ts:976-987 | two clean document sets have the same head exactly when they hold the same documents |
| `HeadRevision.DashLinesCollide` | packages/mcp/src/json-first-storage.ts:979-984 | with a line of three dashes two different sets are hashed from one text |
| `JsonFirstStorage.JsonFirstStorage.LoadProjectAggregate` | packages/mcp/src/json-first-storage.ts:352-376 | undisturbed: with `project.json` in place a load recovers and returns the durable documents with their head; without it, it serves what SQLite has; it reports a conflict exactly for a model of several projects, of another, or one that differs without being older, and leaves a coherent model equal unless every sync attempt failed |
| `JsonFirstStorage.JsonFirstStorage.LoadJsonSource` | packages/mcp/src/json-first-storage.ts:605-640 | undisturbed: a `project.json` out of place means no source, whatever is in the backup; in place, it means a recovered and validated source |
| `JsonFirstStorage.JsonFirstStorage.SaveProjectAggregate` | packages/mcp/src/json-first-storage.ts:378-479 | undisturbed: a save that commits, also when it dies later, passed its checks; conflict, mismatch and stale head are reported exactly for the stated fields of read model, source and snapshot, with canonical JSON and without; with the source in sight it replaces exactly the one set its head stands for, keeps every pack, and keeps the read model coherent if it raises freshness |
| `JsonFirstStorage.JsonFirstStorage.RebuildSqliteReadModelIfNeeded` | packages/mcp/src/json-first-storage.ts:651-677 | from a coherent read model a rebuild leaves it equal to the source, or empty if the database keeps failing |
| `JsonFirstStorage.JsonFirstStorage.SyncJsonSnapshotToSqlite` | packages/mcp/src/json-first-storage.ts:1100-1147 | after a sync with its reset and retry the read model holds the snapshot, or is empty if the database keeps failing |
| `JsonFirstStorage.JsonFirstStorage.Run` | packages/mcp/src/json-first-storage.ts:352-479 | any loads, saves and compactions, one after the other, dying at any step of a replacement or not, form a trace in which every step is what its contract says |
| `JsonFirstStorage.JsonFirstStorage.CompactAudit` | packages/json/src/filesystem.ts:1345-1408 | a compaction that nothing overlaps changes neither the source nor, therefore, its head |
| `JsonFirstStorage.SavesAreSafeExactly` | packages/mcp/src/json-first-storage.ts:378-479 | with a read model and without one: whatever is saved and whatever the model holds, a save that passes its checks replaces the set its head stands for if and only if the source is in sight |
| `JsonFirstStorage.OutOfSightExactly` | packages/mcp/src/json-first-storage.ts:605-614 | the source is out of sight exactly when `project.json` is in the backup of an unfinished replacement and not in the root |
| `JsonFirstStorage.FirstRenameHidesSource` | packages/json/src/filesystem.ts:686-716 | after the first rename of a replacement the source is out of sight, and a save with a null head passes |
| `JsonFirstStorage.SomeCrashHidesSource` | packages/json/src/filesystem.ts:143-161 | for every project and every staged set, one crash puts the source out of sight |
| `JsonFirstStorage.SavedHeadIsLoaded` | packages/mcp/src/json-first-storage.ts:470-471 | in every run of calls one after the other, the head a save returns is the one the next load computes, whatever loads and compactions come between |
| `JsonFirstStorage.SavesFromOneHead` | packages/mcp/src/json-first-storage.ts:989-1053 | in every run of calls one after the other, two saves from one head, each with its source in sight, both succeed only if they replaced the same set |
| `JsonFirstStorage.RunStaysCoherent` | packages/mcp/src/json-first-storage.ts:729-784 | in every run of calls one after the other, while every save sees the source and raises freshness, the read model stays absent, equal or strictly older, and no conflict is raised |
| `JsonFirstStorage.FresherSourceStaysCoherent` | packages/mcp/src/json-first-storage.ts:729-784 | a source that advances without a sync leaves a coherent read model coherent |
| `OverlappingCalls.StepKeepsDisk` | packages/json/src/filesystem.ts:1094-1299 | every step of a call that nobody has overtaken since its lock check, of a recovery, a reading or a replacement, torn copies and removals included, keeps the disk recoverable and leaves it where that call expects it |
| `OverlappingCalls.OrderlyRunsAreIntact` | packages/json/src/filesystem.ts:1094-1408 | from any disk a crash has left: in every interleaving in which no late call acts, the disk recovers to the last committed set, loads return committed sets, and each commit follows from sets that were committed when it read them |
| `OverlappingCalls.OrderlyRunIsSerial` | packages/json/src/filesystem.ts:1345-1408 | if moreover all writers take the lock, or there is one, no commit falls between what another has read and that one |
| `OverlappingRuns.IntactExactly` | packages/json/src/filesystem.ts:1094-1118 | all runs leave disk, answers and commits right if and only if late calls do not act, or everyone takes the lock, or nobody writes, or there is one client |
| `OverlappingRuns.SerialExactly` | packages/json/src/filesystem.ts:1345-1408 | where no late call acts, all commits are serial if and only if all writers take the lock, or there is one |
| `OverlappingRuns.RecoveryDestroysReplacement` | packages/json/src/filesystem.ts:1094-1209 | a recovery that looked for the lock too early, or a writer that did, leaves a root with neither the old nor the new set after a replacement that reports success |
| `OverlappingRuns.RecoveriesDestroyTree` | packages/json/src/filesystem.ts:1182-1192 | two unlocked recoveries that have both read `backup_created` leave an empty root and no backup |
| `OverlappingRuns.LoadReturnsTornSet` | packages/json/src/filesystem.ts:1421-1428 | an unlocked load can return the entries of any number of names that a replacement has moved in so far |
| `OverlappingRuns.StaleCommit` | packages/json/src/filesystem.ts:1252-1299 | a writer without the lock, or one that passed its last check before another took it, commits over a set it has not read, although no call is late |
| `OverlappingRuns.UndisturbedRecovery` | packages/json/src/filesystem.ts:1094-1209 | the steps of a recovery that nobody disturbs come to that recovery, on every disk |
| `OverlappingStorage.CommitKeepsSourceExactly` | packages/mcp/src/json-first-storage.ts:989-1053 | a save replaces the set its head names, and a compaction leaves the source as it is, if and only if what the call read is what is durable when it commits |
| `OverlappingStorage.SavesAreKeptExactly` | packages/json/src/filesystem.ts:1345-1400 | over every history of overlapping saves and compactions, all commits keep the source if and only if no save falls between what any commit has read and that commit |
| `OverlappingStorage.PacksAreKeptExactly` | packages/json/src/filesystem.ts:1314-1336 | over every such history no pack is lost or changed if and only if no pack is added between the look-up of any commit and that commit, save the one that it adds itself |
| `OverlappingStorage.SavedHeadStays` | packages/mcp/src/json-first-storage.ts:470-471 | the head a save returns is the head of the source until the next save, whatever compactions commit between that keep the source |
| `OverlappingStorage.OneSavePerHead` | packages/mcp/src/json-first-storage.ts:989-1053 | while every commit keeps the source, no two saves from one head commit |
| `OverlappingStorage.LockedWritersLoseNothing` | packages/mcp/src/json-first-storage.ts:378-384 | if no late call acts and all writers take the lock, compactions too, then in every interleaving every commit keeps the source and the packs, and loads return projects that were durable |
| `OverlappingStorage.CompactionUndoesSave` | packages/cli/src/index.ts:1651-1658 | an unlocked compaction puts the source, and so its head, back to what it was before a save that has succeeded |
| `OverlappingStorage.LockedSavesAreNotEnough` | packages/cli/src/index.ts:1651-1658 | for every project, save and compaction that fit each other there is such a run, with a saver that takes the lock, a compactor that does not and no late call |
| `OverlappingStorage.SaveDropsPack` | packages/json/src/filesystem.ts:1310-1343 | a save drops the pack that a compaction has committed since the save looked the packs up |
| `CacheCoherence.StoredSetBlocksExactly` | packages/mcp/src/json-first-storage.ts:729-784 | a set in the read model makes every load that reads the source whole fail exactly when it is not the same content, nor older |
| `CacheCoherence.RunsStayCoherentExactly` | packages/mcp/src/json-first-storage.ts:352-376 | in every interleaving of unlocked loads with commits, syncs and crashes the read model is absent, equal or strictly older and whole loads are not refused, if and only if no reading returns a set that differs from the committed one and is as fresh, or is of another project |
| `CacheCoherence.OnlyStaleLoadsAreRefused` | packages/mcp/src/json-first-storage.ts:729-784 | where readings are like that, only a load that holds something older than the source is refused |
| `CacheCoherence.UndisturbedLoadSynchronizes` | packages/mcp/src/json-first-storage.ts:651-677 | a load that has read the source whole and that no commit overtakes passes, and its rebuild makes the read model current |
| `CacheCoherence.RebuildRegressesExactly` | packages/mcp/src/json-first-storage.ts:651-677 | a rebuild stores what its load read, and so puts the read model back exactly when that is older than what the model holds |
| `VersionValidator.VersionValidator.ValidateVersionReference` | packages/json/src/validator.ts:239-279 | nothing is added exactly when the pointer is null or names another existing version, and otherwise one issue is |
| `VersionValidator.VersionValidator.FollowChain` | packages/json/src/validator.ts:291-321 | one walk visits at most as many ids as there are versions and ends at a real cycle or a real dead end |
| `VersionValidator.VersionValidator.ValidateVersionChainCycles` | packages/json/src/validator.ts:281-324 | with unique ids every report is of the cycle its version runs into, no two have one text, and every cycle that some version runs into is reported or one of the same text; so something is reported if and only if a cycle exists |
| `VersionGraph.EntersOnce` | packages/json/src/validator.ts:290-321 | a version runs into one cycle at most, from one entry on |
| `VersionGraph.JoinedIsInjective` | packages/json/src/validator.ts:296-297 | cycles of ids without an angle bracket have one text only if they are one |
| `VersionValidator.VersionValidator.GroupSiblings` | packages/json/src/validator.ts:458-477 | the nested maps hold every sibling group once, in order |
| `VersionValidator.VersionValidator.ValidateSiblingGroup` | packages/json/src/validator.ts:479-574 | one group reports exactly its head count, tail count and coverage faults |
| `VersionValidator.VersionValidator.ValidateVersionSiblingStructure` | packages/json/src/validator.ts:338-576 | the whole sibling pass reports each pair's faults and each group's faults once |
| `VersionValidator.VersionValidator.ValidateVersions` | packages/json/src/validator.ts:1138-1185 | with unique ids the version checks report nothing if and only if parents exist and never loop and every sibling group is one doubly linked list |
| `VersionGraphProofs.SiblingChecksAreExact` | packages/json/src/validator.ts:338-576 | reference, pair and group checks accept exactly the version sets whose groups are doubly linked lists |
| `VersionGraphProofs.SiblingListsHaveNoCycles` | packages/json/src/validator.ts:281-324 | doubly linked groups leave nothing for the next and previous cycle checks |
| `VersionValidator.ChecksAcceptExactly` | packages/json/src/validator.ts:239-576 | all checks together accept exactly the sound version sets, whatever the order of ids |
| `JsonKeys.KeyRoundTripExactly` | packages/json/src/codec.ts:547-551 | a key survives snake case and back if and only if every capital follows a lower-case letter or digit and no underscore precedes one |
| `JsonKeys.NoCollisions` | packages/json/src/codec.ts:553-574 | camel-case siblings never collide when their keys are rewritten |
| `JsonKeys.TreeRoundTripExactly` | packages/json/src/codec.ts:553-574 | a tree survives the deep transform and back if and only if all its keys are in camel case |
| `JsonOrder.SortIsNormalForm` | packages/json/src/codec.ts:526-545 | two values sort to one if and only if they have the same content, so sorting ignores insertion order |
| `JsonOrder.SortTwiceIsOnce` | packages/json/src/codec.ts:526-545 | sorting is idempotent |
| `JsonOrder.EncodingIgnoresOrder` | packages/json/src/codec.ts:619-620 | the written payload does not depend on the order in which it was built |
| `JsonPayloads.PayloadRoundTripExactly` | packages/json/src/codec.ts:619-623 | decoding an encoded payload gives the same content if and only if all keys at every depth are in camel case |
| `JsonReencoding.KeyReencodesExactly` | packages/json/src/codec.ts:547-551 | a written key survives camel case and back if and only if every underscore before a letter or digit is followed by a letter and follows a lower-case letter or digit that did not itself follow such an underscore |
| `JsonReencoding.PayloadReencodesExactly` | packages/json/src/codec.ts:619-623 | a payload that is written, read and written again gives the same text if and only if all its written keys are stable, at every depth |
| `JsonReencoding.ShortWordsAreForgotten` | packages/json/src/codec.ts:547-551 | `a_b_c` comes back as `a_bc` |
| `DigestPayloads.DigestRoundTripExactly` | packages/json/src/codec.ts:576-616 | a digest payload survives encoding and decoding if and only if its keys are camel case at every depth and its gate snapshot has the lists of its kind |
| `DigestPayloads.DigestReencodesExactly` | packages/json/src/codec.ts:576-620 | a written digest payload is written again as it was if and only if its keys are stable at every depth and its gate snapshot has those lists |
| `DigestPayloads.OldGateGainsLists` | packages/json/src/codec.ts:576-616 | a start gate without lists comes back with both, empty |
| `DigestPayloads.GateIsFilled` | packages/json/src/codec.ts:591-613 | of a gate snapshot exactly the two lists of its kind, in a shutdown gate those of its close gate, are filled when they are missing or null |
| `DigestPayloads.PayloadIsFilled` | packages/json/src/codec.ts:583-590 | of a payload exactly the gate snapshot changes, if it is an object |
| `DocumentPaths.PathsAreInjective` | packages/json/src/document-descriptors.ts:112-140 | two records share a path exactly when they share kind, id and, for events, month |
| `DocumentPaths.PathsDispatch` | packages/json/src/codec.ts:2047-2118 | the decoder sends every record path to its own kind |
| `DocumentPaths.EventMonthExactly` | packages/json/src/document-descriptors.ts:130-138 | an event is filed exactly when its creation time starts with four digits, a dash and two digits, and then under those |
| `ApprovalCodec.ApprovalRoundTripExactly` | packages/json/src/codec.ts:1744-1887 | an encoded artifact always decodes; it equals the original, up to field order in the digest payload, exactly when provenance had an authorization id and the digest payload survives; and it re-encodes to itself exactly when that payload is stable |
| `ApprovalCodec.MovedRecordIsBound` | packages/json/src/codec.ts:1805-1816 | an accepted exact record moved to another artifact is accepted there if and only if that is the artifact of the same operation |
| `ApprovalCodec.CanonicalDocumentsExactly` | packages/json/src/codec.ts:1744-1887 | a decodable artifact document is a fixpoint exactly when it has no top-level grant fields, no half-filled profile and a stable digest payload |
| `AggregateCodec.Encode` | packages/json/src/codec.ts:1889-2001 | succeeds exactly when every record has a path and an encoding, and yields the fixed documents and one per record, in path order; an error names a record without one |
| `AggregateCodec.Decode` | packages/json/src/codec.ts:2003-2163 | throws exactly when the documents, the later of two with one path, are those of no aggregate, with an error that states what is wrong; otherwise returns that aggregate with each collection in path order |
| `AggregateCodec.BodiesByKind` | packages/json/src/codec.ts:2047-2118 | which bodies a record of each kind may have |
| `AggregateRoundTrip.PathsAreDistinctExactly` | packages/json/src/codec.ts:1889-2001 | encoded paths are pairwise distinct if and only if ids are unique within each kind |
| `AggregateRoundTrip.EncodingIgnoresOrder` | packages/json/src/codec.ts:1889-2001 | the encoding does not depend on the order of any collection |
| `AggregateRoundTrip.RoundTripExactly` | packages/json/src/codec.ts:1889-2163 | with unique ids, decoding an encoding gives the same records, up to field order in free-form values, if and only if event metadata and digest payloads have camel-case keys, gate snapshots in digests have their lists, artifacts have provenance only with an authorization id, and operations and plain records pass their shape checks |
| `AggregateRoundTrip.RecordSurvivesExactly` | packages/json/src/codec.ts:1624-1692 | the same for one record of each kind |
| `AggregateRoundTrip.ReencodingIsFixpointExactly` | packages/json/src/merge-check.ts:103-105 | encoding what was decoded from an encoding gives the same documents if and only if the written keys of event metadata and digest payloads are stable and the gate snapshots of digests have their lists |
| `MergeCheck.FindDocumentContentMismatches` | packages/json/src/merge-check.ts:40-68 | collects exactly the paths whose document is missing or different on one side |
| `MergeCheck.NoMismatchExactly` | packages/json/src/merge-check.ts:40-68 | nothing is collected exactly when both sides hold the same documents |
| `MergeCheck.MismatchExactly` | packages/json/src/merge-check.ts:40-68 | a written set and its re-encoding differ exactly at the events, pending operations and artifacts that are not stable in that sense |
| `MergeCheck.RunMergeCheck` | packages/json/src/merge-check.ts:70-122 | reports exactly the paths where the documents differ from what their aggregate encodes to, or that they have no aggregate; of a set written by the codec it reports exactly the records that are not stable |
| `SchemaValidation.Validate` | packages/mcp/src/schema-validation.ts:35-97 | the issues are exactly the faults of the value, each at its own path, and there are none exactly for the values the schema accepts |
| `SchemaValidation.ValidateOneOf` | packages/mcp/src/schema-validation.ts:49-71 | `oneOf` reports nothing exactly when one candidate and no other accepts the value, the faults of the only near miss when none does, and else how many matched |
| `SchemaKeywords.TypeKeyword` | packages/mcp/src/schema-validation.ts:71-83 | `type` accepts exactly the values of that type; null is no object, a number with a fraction no integer, and an unknown type accepts nothing |
| `SchemaKeywords.ConstKeyword` | packages/mcp/src/schema-validation.ts:85 | `const` accepts exactly that value, and never an object or an array |
| `SchemaKeywords.EnumKeyword` | packages/mcp/src/schema-validation.ts:84 | `enum` accepts exactly the listed values that are neither objects nor arrays |
| `SchemaKeywords.BoundsKeywords` | packages/mcp/src/schema-validation.ts:94-95 | bounds are inclusive and say nothing about what is no number |
| `SchemaKeywords.ObjectKeywords` | packages/mcp/src/schema-validation.ts:86-92 | an object schema accepts exactly objects with all required names, no undeclared one if it is closed, and accepted properties |
| `SchemaKeywords.ArrayKeywords` | packages/mcp/src/schema-validation.ts:93 | an array schema accepts exactly arrays of accepted items |
| `SchemaKeywords.AnyOfKeyword` | packages/mcp/src/schema-validation.ts:41-48 | `anyOf` decides alone, and accepts exactly what some candidate schema accepts |
| `SchemaKeywords.OneOfKeyword` | packages/mcp/src/schema-validation.ts:49-71 | `oneOf` accepts exactly what one candidate schema accepts and no other |
| `SchemaKeywords.NearMissExactly` | packages/mcp/src/schema-validation.ts:21-33 | an alternative is a near miss exactly when every declared constant of a property that is there is the one that is there |
| `SchemaKeywords.EmptySchema` | packages/mcp/src/schema-validation.ts:35-97 | a schema without keywords accepts everything |
| `CompositeTool.BranchAcceptsExactly` | packages/mcp/src/index.ts:377-399 | a composed branch schema accepts an input exactly when the selector does, which is the branch's own `operation` property if it declares one, and the branch accepts the rest |
| `CompositeTool.CompositeAcceptsExactly` | packages/mcp/src/index.ts:375-399 | a composite input validates exactly when the selector of one branch alone accepts it and that branch the rest |
| `CompositeTool.NamedBranchAcceptsExactly` | packages/mcp/src/index.ts:375-399 | where no branch declares an `operation`, a composite input validates exactly when the branch it names accepts it without `operation` |
| `CompositeTool.Call` | packages/mcp/src/index.ts:375-417 | a validated input reaches the unknown-operation error exactly when its `operation` names no branch, and otherwise the branch it names; where no branch declares an `operation`, never the error, and the branch accepts what is forwarded |
| `CompositeTool.OwnOperationIsNeverForwarded` | packages/mcp/src/index.ts:386-397 | a branch that requires `operation` itself refuses everything forwarded to it |
| `CompactProjection.CompactProjection.ProjectCompactValue` | packages/mcp/src/response-detail.ts:524-561 | result and notes are exactly those stated for each kind of value and key, at every depth; so the projection adds nothing, with nothing noted it has the same content outside `runtimeContext` if and only if no field is called `__proto__`, and nothing is noted unless content was lost |
| `CompactProjection.CompactProjection.ProjectArray` | packages/mcp/src/response-detail.ts:530-542 | arrays keep their first ten items, below `events` cut to their identity fields, and note the cut and what any event lost, also beyond the tenth |
| `CompactProjection.CompactProjection.CompactRouteRecord` | packages/mcp/src/response-detail.ts:238-252 | a route record keeps exactly its listed fields and notes every other |
| `CompactProjection.CompactProjection.CompactEvent` | packages/mcp/src/response-detail.ts:192-213 | an event keeps exactly its identity fields and notes every other |
| `CompactProjection.CompactProjection.CompactRuntimeContext` | packages/mcp/src/response-detail.ts:145-190 | exactly status, root, project id, host profile, project and name survive, each only if it is of the expected type, and the notes are exactly those of the other fields |
| `CompactProjection.CutEventIsExact` | packages/mcp/src/response-detail.ts:192-213 | the projection of a cut event is that of the item with exactly its identity fields |
| `CompactProjection.IncludesExactly` | packages/mcp/src/response-detail.ts:553-556 | payloads are kept exactly where the path has `recommendedNextActions` somewhere in it |

## Assumptions

- A rename of one top-level entry is one atomic step, and so is the creation of a lock directory with its metadata, a
  lock renewal, and the last ownership check together with the write of the authority state file. A recursive copy or
  removal is not: a crash in it leaves any part of the tree, with files possibly cut short. A container file that has
  been cut short and still reads, with its digest, is complete.
- The removal of a replacement directory takes the manifest of an unfinished transaction before anything of its backup.
- Between calls that overlap, the reading of the manifest, of the backup names and of the current documents before a
  recovery is one step, and every call recovers before it reads: what an adapter sees of a `project.json` that is out of
  place is stated for calls one after the other. Each save raises freshness.
- The old canonical tree is valid or empty when a replacement starts. A lock holder takes no step after its lease.
- SHA-256 is injective, and policy digests are strings of 64 characters. `localeCompare` is a total order on the strings
  it compares. JSON text is modelled after parsing; printing and parsing round-trip on canonical text, and JSON text has
  no line of three dashes.
- Authorizations issued by the host have ids that do not start like those of the delegated authority.
- Document validation, the project id, freshness and comparable content depend on the documents and not on their order;
  a valid document set is not empty. Snapshots encode to canonical text, and paths and texts are spelled injectively.
- Times and freshness stamps are natural numbers. Paths and file names arrive parsed into namespace and name.
- JSON objects have no inherited fields and distinct keys; keys are ASCII where letter case is changed.

## Left out

- The lock and transaction protocols are state machines over their steps instead of classes: interleaving is what
  matters there, and one process's retries, timeouts and heartbeats add nothing to safety.
- Liveness: eventual lock acquisition and bounded waiting. A dead installer leaves the profile lock behind for good.
- Physical paths, symbolic links, permissions, Windows rename retries and real clocks.
- The unlocked first write of the empty authority state, and migrations of old authority state files.
- The exact commit coordinator and commit ownership tokens of the local authority.
- Policy evaluation, gates and the checks a decision request passes before the budget transaction.
- The envelope and pack JSON shapes: container files are modelled after parsing, malformed ones as unreadable.
- `inspectRuntimeBinding` and the reporting of storage modes; SQL and the SQLite adapter.
- Validator checks other than version references, cycles and siblings; the details of issues beyond the ids named here
  (lists are in the order of the loops and not sorted).
- Record fields that are copied one to one, and the codecs of typed nested records.
- Response summaries other than the general projection, and the selection of entity ids and next actions.
- VersionValidator.VersionValidator.ValidateVersionChainCycles: soundness and completeness are stated for unique ids; with repeated ids only the shape and the bound of each reported cycle are.
- AuditRoot.AuditRoot.CompactAudit: the whole call is one step for everyone else; overlapping compactions are in `OverlappingStorage`.
- AuditRoot.AuditRoot.Run: calls do not overlap; `OverlappingStorage` has those that do.
- AuditRoot.RunKeepsPacksExactly: calls do not overlap; `OverlappingStorage.PacksAreKeptExactly` has those that do.
- JsonFirstStorage.JsonFirstStorage.LoadJsonSource: recovery and reading are one step for everyone else; `OverlappingRuns` has what goes wrong otherwise.
- JsonFirstStorage.JsonFirstStorage.SaveProjectAggregate: no unlocked call falls between its reading and its replacement; `OverlappingStorage` has those that do.
- JsonFirstStorage.JsonFirstStorage.CompactAudit: no other call falls between its reading and its replacement; `OverlappingStorage.CompactionUndoesSave` has one that does.
- JsonFirstStorage.JsonFirstStorage.Run: calls do not overlap.
- JsonFirstStorage.SavedHeadIsLoaded: calls do not overlap; `OverlappingStorage.SavedHeadStays` has those that do.
- JsonFirstStorage.SavesFromOneHead: calls do not overlap; `OverlappingStorage.OneSavePerHead` has those that do.
- JsonFirstStorage.RunStaysCoherent: calls do not overlap; `CacheCoherence.RunsStayCoherentExactly` has those that do.
- JsonFirstStorage.JsonFirstStorage.LoadProjectAggregate: recovery and reading are one step for everyone else; and without canonical JSON, the snapshot read from a database of several projects is left open.
- Liveness of the cache: a read model that stays behind is only repaired by the next load or save.
