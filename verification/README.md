# Stock verification: a verified model

This project models the parts of the stock-verification system whose correctness depends on more
than one function at a time, and proves what they keep over whole runs. Dafny 4.11;
`dafny verify dfyconfig.toml` checks everything.

| file | models |
|---|---|
| Common | options, results, Python truthiness of an optional string |
| CommandRisk | command normalisation and risk classification |
| CommandTable | what the classifier decides, by words, flags and paths |
| ApprovalLog | the hash-chained approval log: entries, validation, the gate, the locked operations |
| ApprovalValidity | which logs are accepted, entry by entry |
| ApprovalTable | what each operation writes and what the gate answers, by the stored entries |
| ApprovalChain | tamper evidence of the chain |
| ApprovalHistory | every log the operations can reach, lifecycle, reuse of run ids |
| ApprovalGate | when the execution gate opens |
| ApprovalRaces | executions under interleaving: unlocked, possibly stale checks |
| ApprovalFile | the log as a class whose methods grow it in place |
| OfflineSync | the offline command journal, batch by batch |
| OfflineRaces | several batches at once, decided by the unique index on command ids |
| OfflineOrder | exactly when a device's entries stay in order although its batches overlap |
| CountLineChains | create and recount of count lines: locks, duplicate check, the two writes and their refusals |
| CountLineRuns | every interleaving of such requests: recount chains, failed recounts |
| CountLineLocks | exactly when locks, duplicate check and fingerprint keep one live line per place |
| CountLineRecounts | what a recount may supersede |
| CountLineVersions | version numbers along a chain, with quantity edits in between |
| QuantityEdits | optimistic versioning of quantity edits |
| CountLinePages | the filtered listing and its pages |
| Reconciliation | the session reconciliation report |
| ItemVerification | verification of items, its optimistic lock and its two logs |
| LookupCache | the read-through cache of enhanced lookups |
| LookupRaces | lookups interrupted between read and fill, updates between write and eviction |
| SqlGuard | the read-only guard on ERP queries |
| SqlText | the normal form and the comment pass, by fields and comments |
| MissingBarcodes | gaps in a barcode series |

Source code that loops over state or changes stored state is a method or a class here
(`ValidateEntries`, `ResolvePendingApproval`, `ApprovalFile`, `CommandJournal`, `CountLineApi`,
`StoredLine`, `FilterPage`, `Summarize`, `VerificationApi`, `ItemService`, `FindMissingRanges`); each
is proved to do what a specification function says, and the results over runs and interleavings are
lemmas about those functions. What such a function does to the stored fields is stated a second time without
mentioning it, by fields and arithmetic alone: the lemmas named `…Table`, `…Exactly` and `AcceptedIff`, and
the `ensures` of the methods. Concurrent requests are state machines over their atomic steps.
Databases and files are sequences and maps, and quantities are reals.

SHA-256, canonical JSON, `shlex`, the file system behind token normalisation and the payload digest
are function-valued parameters, so every result holds whatever they compute; the digest a count line
carries is taken to be as good as the fields it is taken of. What is assumed of them is
written as a precondition where it is used: digests have 64 characters and canonical JSON is injective
(`ApprovalChain.Sound`), splitting undoes joining (`CommandRisk.RoundTrips`), a normalised token is its
own normal form (`CommandRisk.NormalizesOnce`), payload digests are not empty
(`OfflineSync.DigestsNonEmpty`). The log model is stated for any normaliser and classifier;
`ApprovalLog.HostOf` plugs in those of CommandRisk, and CommandRisk is stated for any script registry
whose levels are L3 or L4; `RepositoryShell` holds the repository's own, and
`ApprovalGate.RegisteredScriptsAreGated` is stated with it.

## Where the code does not do what one would expect

Each point is a proved statement about the code as it is.

- Reusing a run id: a transition copies the first request of the run while validation compares with
  the latest, so the log stays readable exactly when both carry the same execution hash; otherwise the
  next approval is written and the log can never be read or changed again
  (`TransitionReadableIff`, `ReusedRunIdBreaksLog`). The results over all runs therefore ask for fresh
  run ids, as `new_id` gives.
- Validating a log does not check the lifecycle (`ValidationIgnoresLifecycle`); only the locked
  operations keep it.
- Appending arguments can lower the risk of a one-token command, exactly when the token is an
  interpreter whose own name holds a risky keyword (`AppendingToOneToken`, `InterpreterNameRiskIsLost`).
- The offline protocol's document (docs/architecture/offline-command-protocol.md) says that a lower
  sequence is rejected; the code rejects an equal one too, and reads the mark once per batch, so a batch
  keeps a device's entries in order exactly when those of its commands that are inserted ascend
  (`OrderKeptIffInsertedAscend`).
- A resent command gets the same acknowledgement exactly when it carries a payload hash
  (`ReplayIsSafe`), and a command is answered twice exactly when its activity-log write fails after its
  insert (`EveryCommandAnsweredOnce`).
- Batches of one device that overlap do not see each other's entries: ids stay unique by the index alone,
  and the device's order survives every interleaving exactly when whatever can be inserted before another
  command has a lower sequence (`AlwaysOrderedIff`). Two batches that each bring one new command never meet
  that, whatever their sequences (`TwoCommandsNeverOrdered`); one batch at a time does
  (`SoleBatchRaisesMarkIff`, `SerialSortedKeepsOrder`).
- A recount is two writes. Where the database supports transactions both are rolled back, because the unit
  of work around them is left without a commit (backend/api/count_lines_routes.py:747-781,
  backend/core/uow.py:105-113): the request is answered with its line and nothing is stored
  (`PersistLine`, `CreateCountLine`). Where it does not, the second write can fail after the first is
  stored, for instance because the session was written in between, and both lines stay live for good
  (`FailedRecountLeavesTwo`, `FailedRecountStays`); the report then counts both
  (`FailedRecountCountsTwice`). One live line per place with inverse links therefore holds exactly while
  no stored recount owes the superseding of its target (`OneLiveIffNothingOwed`).
- The lock service grants a lock again to the user who holds it
  (backend/services/locking/mongo_service.py:84-87), that user's other request may release it, and the
  location lock is keyed by floor and rack ids while the duplicate check looks at the numbers. What is left
  is the fingerprint, which refuses a second line with the same place, location, barcode, quantity and
  version. For any set of requests, interleaved and repeated at will, `OneLineStaysLiveIff` says exactly
  when no place ever gets a second line that nothing accounts for: any two requests for one place carry the
  same count, or look where they store, are of different users and need a common lock that neither user
  needs for another request. A lock shared by two requests is undone by a third
  (`ThirdRequestFreesLock`), and an edit of the first line undoes the fingerprint. A single request is
  judged by `SubmissionKeepsOneIff`.
- A recount is stored one version above its target as that stands then, because any other version is
  refused; later edits on either side move them apart (`LinkRaisesVersionByOneIff`).
- Quantity edits are protected by the version only on lines that have one (`StaleCommitsIffUnversioned`),
  and a stored variance is the counted quantity minus the line's baseline only under the condition of
  `VarianceMatchesLineIff`.
- A verification that read its item before another one committed can replace the verified quantity
  without a conflict fork: for any set of requests, `SilentOverwriteIff` says exactly when, and
  `OverwritesIff` says it of each commit.
- A cached item goes stale when it was looked up by an alias and is then updated
  (`UpdateKeepsTransparentIff`, `AlwaysTransparentIff`), and, whatever the key, when it is updated between a
  lookup's read and its fill (`FillIsRightIff`, `AlwaysTransparentIffNothingUpdatable`). A lookup that
  begins between an update's write and its eviction puts the old copy back although nothing changes while
  it runs (`LookupBeforeEviction`).
- An empty run id, unlike none, lets the gate choose among several approved runs of the command
  (`GateOpensIffRunSettled`).
- The variances are the material log entries in another order as soon as one verification overtakes another
  between its two log inserts (`OvertakingChangesOrder`), and lack those whose request failed there
  (`LogsHoldTheSameIff`).
- The report's missing-barcode count is right exactly when every existing barcode lies in the interval
  (`ReportedCountExact`).

## Model

| member | source | states |
|---|---|---|
| CommandRisk.CoerceRisk | scripts/approval_pipeline.py:196-208 | a requested level is accepted exactly when it is known and not below the classified one; the result is the requested level, or the classified one when none is asked |
| CommandRisk.GitRiskExact | scripts/approval_pipeline.py:925-947 | L4 exactly for the subcommands that lose work with the arguments that make them do so, L3 exactly for those that change files, no verdict otherwise |
| CommandRisk.GitVerdictStays | scripts/approval_pipeline.py:925-947 | further arguments leave a git verdict as it is |
| CommandRisk.GitHasNoRegistryRisk | scripts/approval_pipeline.py:124-176 | a git command has no target script, so without a git verdict it is L0 |
| CommandRisk.ScriptRiskGrows | scripts/approval_pipeline.py:144-163 | more flags never lower the risk of a script |
| CommandRisk.AppendingNeverLowersRisk | scripts/approval_pipeline.py:124-163 | appending arguments to two or more tokens never lowers the risk |
| CommandRisk.AppendingToOneToken | scripts/approval_pipeline.py:166-176 | nor to one token, unless it is an interpreter whose own name is risky |
| CommandRisk.InterpreterNameRiskIsLost | scripts/approval_pipeline.py:166-176 | in that case a harmless script lowers the risk exactly when the name held a keyword |
| CommandRisk.LongerCommandIsNoSafer | scripts/approval_pipeline.py:98-163 | the same for command lines, through normalisation and re-tokenisation; approval stays required |
| CommandRisk.RegisteredScriptRisk | scripts/approval_pipeline.py:861-897 | a registered script has the registry's risk, whatever its name and arguments |
| CommandRisk.RegisteredScriptsNeedConfirmation | scripts/approval_pipeline.py:98-163 | so starting it needs approval and confirmation, through normalisation and re-tokenisation |
| CommandTable.ScriptRiskExact | scripts/approval_pipeline.py:861-922 | a listed script is judged by the registry alone, with the flag it asks for; any other is L4 or L3 exactly for the words in its name; what is left is L2 exactly when a script is told to write |
| CommandTable.TargetExact | scripts/approval_pipeline.py:166-176 | a script is the target exactly when the command starts it, by an interpreter or directly, whatever its arguments |
| CommandTable.BaseNameIsLast | scripts/approval_pipeline.py:128 | the name that is judged is the last of the path, whatever directories, slashes and dots surround it |
| CommandTable.ActionIsName | scripts/approval_pipeline.py:179-185 | the action is that name without its extension, dashes for underscores |
| CommandTable.PolicyTable | scripts/approval_pipeline.py:124-163 | a command's level is the git verdict or else that of its script; approval is asked for exactly from L2 on, confirmation from L3 on |
| CommandTable.Unparsable | scripts/approval_pipeline.py:86-100 | a command has no normal form and no policy exactly when it cannot be split or is empty |
| ApprovalLog.ValidateEntries | scripts/approval_pipeline.py:258-286 | the one-pass loop accepts exactly the accepted logs and otherwise names the first refused entry and why |
| ApprovalLog.ResolvePendingApproval | scripts/approval_pipeline.py:608-645 | the two list-building loops find the last matching run in a permitted state, or the right error |
| ApprovalValidity.AcceptedIff | scripts/approval_pipeline.py:258-286 | a log is accepted exactly when every entry has a valid schema, the hash of the entry before it, its own hash over its material and that one, and, as a request, the digest of its command, id and time, or else the hash of its run's latest earlier request |
| ApprovalTable.RequestTable | scripts/approval_pipeline.py:332-375 | a request appends one linked entry that says what was asked, exactly when the command parses, the level is known and not below the command's, and the hash is a digest |
| ApprovalTable.RequestRefusals | scripts/approval_pipeline.py:196-208 | otherwise it is refused for the command, the unknown level or the lower one |
| ApprovalTable.ApproveTable | scripts/approval_pipeline.py:450-461 | an approval appends one approved entry of the run, with the given approver, note and time and all else from its request, exactly when the run's latest entry is a request; otherwise the log stays and the error names the state |
| ApprovalTable.RejectTable | scripts/approval_pipeline.py:464-482 | a rejection appends one rejected entry, keeping the approver, exactly from requested or approved |
| ApprovalTable.ExecutionTable | scripts/approval_pipeline.py:648-663 | logging an execution appends one executed entry, keeping the approver, exactly from approved |
| ApprovalTable.FinalizeTable | scripts/approval_pipeline.py:666-752 | finalising a named run appends one entry exactly when the run stands executed and the claim names it: completed exactly for exit code zero, no errors and the expected number of changes, failed otherwise, with the report |
| ApprovalTable.FinalizeOnlyExecuted | scripts/approval_pipeline.py:666-707 | whatever is claimed, only a run that stands executed is ever finalised |
| ApprovalTable.TransitionNames | scripts/approval_pipeline.py:430-435 | over any run, a named approver is recorded, and otherwise the one named last is repeated |
| ApprovalTable.GateForNamedRun | scripts/approval_pipeline.py:485-573 | with a run id, for any permitted states, the gate opens exactly when the run is of the presented command, carries the presented hash, stands in a permitted state and is confirmed where its risk asks for it; the permit is that run's |
| ApprovalTable.NamedRunRefusals | scripts/approval_pipeline.py:524-573 | otherwise it refuses for the command, the hash, the state or the confirmation, in this order |
| ApprovalTable.UnknownRunIsRefused | scripts/approval_pipeline.py:416-420 | an unknown run id is refused |
| ApprovalTable.GateForHash | scripts/approval_pipeline.py:575-587 | with a hash alone the gate takes the first request of the command that carries it, and opens exactly by its run's state and confirmation |
| ApprovalTable.GateForFreeCommand | scripts/approval_pipeline.py:494-513 | a command that needs no approval always passes without id and hash, with a permit that names no run |
| ApprovalTable.EmptyRunIdTakesTheLast | scripts/approval_pipeline.py:608-645 | an empty run id selects the run of the last request of the command whose run is in a permitted state |
| ApprovalChain.HeadPreimage | scripts/approval_pipeline.py:216-219 | a log's head hash is the digest of its last payload followed by the previous hash |
| ApprovalChain.Compare | scripts/approval_pipeline.py:258-286 | two accepted logs with one head hash are equal, or the walk back returns a hash collision or a preimage of the genesis hash |
| ApprovalChain.HeadCommitsToPrefix | scripts/approval_pipeline.py:258-286 | an accepted log whose head occurs inside another is its prefix, or a break of the hash is returned |
| ApprovalChain.EditedPayloadIsRefused | scripts/approval_pipeline.py:263-269 | changing any recorded payload makes the log refused, or exhibits a collision |
| ApprovalHistory.TransitionReadableIff | scripts/approval_pipeline.py:275-285 | a transition leaves the log readable exactly when the run's first and latest requests share their execution hash |
| ApprovalHistory.TransitionKeepsGood | scripts/approval_pipeline.py:378-413 | a lawful transition never fails and keeps every run in order |
| ApprovalHistory.RequestRisk | scripts/approval_pipeline.py:345-373 | a request is recorded with a valid execution hash and not below the risk of its command |
| ApprovalHistory.OperationKeepsGood | scripts/approval_pipeline.py:450-482 | each locked operation keeps the log accepted and every run lawful |
| ApprovalHistory.ReachableLogsAreGood | scripts/approval_pipeline.py:243-286 | every log reached with fresh run ids is accepted; its runs follow the lifecycle, agree with their requests and keep their approver |
| ApprovalHistory.ReachableRisksAreRecorded | scripts/approval_pipeline.py:345-347 | in every reachable log no request stands below the risk of its command |
| ApprovalHistory.LifecycleOfEveryRun | scripts/approval_pipeline.py:442-482 | at most four entries per run along the lifecycle, nothing after a terminal status, the approver repeated ever after |
| ApprovalHistory.LegalPathsAreShort | scripts/approval_pipeline.py:442-482 | a legal path has at most four entries and repeats no status |
| ApprovalHistory.RefusedLogsStayRefused | scripts/approval_pipeline.py:222-240 | once a log is refused no operation changes it again |
| ApprovalHistory.ReusedRunIdBreaksLog | scripts/approval_pipeline.py:423-427 | two requests under one id and an approval: readable exactly when the hashes agree, otherwise lost for good |
| ApprovalHistory.ValidationIgnoresLifecycle | scripts/approval_pipeline.py:274-285 | validation accepts an execution without approval |
| ApprovalGate.ResolvedIffOneRun | scripts/approval_pipeline.py:608-645 | on a good log the unqualified lookup succeeds exactly when one run of the command is in a permitted state |
| ApprovalGate.ResolvedWithEmptyId | scripts/approval_pipeline.py:608-645 | with an empty run id the lookup takes the approved run of the command that was requested last |
| ApprovalGate.GateOpensIffRunSettled | scripts/approval_pipeline.py:485-557 | without hash and with no run id or an empty one, the gate opens exactly when the lookup settles on a run and it is confirmed where its risk asks for it |
| ApprovalGate.GateIsSafe | scripts/approval_pipeline.py:485-587 | nothing classified L3 or above passes unconfirmed; a permit names an approved run of the command and repeats its request and approver |
| ApprovalGate.ArgumentsDoNotAvoidApproval | scripts/approval_pipeline.py:124-163 | a longer form of a command that needs approval passes only with an approved run of its own |
| ApprovalGate.RegisteredScriptsAreGated | scripts/approval_pipeline.py:861-897 | with the repository's own registry, starting a registered script passes the gate only confirmed and with an approved run of its own |
| ApprovalRaces.ExecutionFollowsApproval | scripts/approval_pipeline.py:648-663 | an executed entry is written only behind an approval, and not behind an earlier execution |
| ApprovalRaces.EachApprovalStartsOnce | scripts/approval_pipeline.py:590-663 | over every interleaving with unlocked, possibly stale checks, each approved run is started at most once |
| ApprovalRaces.EveryStartIsLawful | scripts/approval_pipeline.py:485-663 | and each execution, when it began, was confirmed if its command is L3 or above, and had an approved run of the command that was presented |
| ApprovalFile.ApprovalFile.ReadEntries | scripts/approval_pipeline.py:222-240 | returns the entries exactly when they are accepted |
| ApprovalFile.ApprovalFile.AppendLocked | scripts/approval_pipeline.py:243-255 | links, hashes, checks and appends one entry, or leaves the file alone |
| ApprovalFile.ApprovalFile.RequestRun | scripts/approval_pipeline.py:325-375 | performs the request in place, as `RequestTable` says it |
| ApprovalFile.ApprovalFile.ApproveRun | scripts/approval_pipeline.py:450-461 | performs the approval in place, as `ApproveTable` says it |
| ApprovalFile.ApprovalFile.RejectRun | scripts/approval_pipeline.py:464-482 | performs the rejection in place, as `RejectTable` says it |
| ApprovalFile.ApprovalFile.LogExecutionState | scripts/approval_pipeline.py:648-663 | performs the execution entry in place, as `ExecutionTable` says it |
| ApprovalFile.ApprovalFile.ValidateExecution | scripts/approval_pipeline.py:590-605 | answers as the gate, which `GateForNamedRun`, `GateForHash` and `GateOpensIffRunSettled` state, and writes nothing |
| ApprovalFile.ApprovalFile.FinalizeExecution | scripts/approval_pipeline.py:666-707 | performs the finalisation in place, as `FinalizeTable` says it |
| ApprovalFile.ValidateFrom | scripts/approval_pipeline.py:485-557 | the imperative gate computes the gate those results are about |
| OfflineSync.CommandJournal.Handle | backend/api/offline_sync_api.py:99-192 | one command is judged, as `VerdictTable` says it, and at most its entry inserted |
| OfflineSync.CommandJournal.SyncCommands | backend/api/offline_sync_api.py:84-205 | the batch loop leaves the specified journal and response |
| OfflineSync.VerdictTable | backend/api/offline_sync_api.py:99-172 | a command seen before is acknowledged with the stored state or refused as a conflict, by the hash; one not above the mark is refused; a staff command in order is refused exactly for one of the four approval keys; any other is stored field by field as it was sent |
| OfflineSync.StaffEntriesAreClean | backend/api/offline_sync_api.py:134-146 | no entry a staff batch inserts holds an approval key |
| OfflineSync.ResponseTable | backend/api/offline_sync_api.py:99-200 | each command's verdict is answered with its acknowledgement, rejection and entry in the map of acknowledgements |
| OfflineSync.FaultsBefall | backend/api/offline_sync_api.py:168-200 | a failing lookup or insert refuses its own command and no other; a failing activity log refuses one that is stored |
| OfflineSync.HighWaterExact | backend/api/offline_sync_api.py:91-97 | the mark is the greatest sequence of the device, -1 without one |
| OfflineSync.BatchKeepsJournal | backend/api/offline_sync_api.py:91-176 | entries unchanged, ids unique, every insertion a command of the batch with all its fields, above the mark at batch start; the mark rises exactly on insertion, other devices untouched |
| OfflineSync.JournalOnlyGrows | backend/api/offline_sync_api.py:91-176 | the same over every history of batches |
| OfflineSync.InsertedIffInsertable | backend/api/offline_sync_api.py:99-172 | a command is inserted exactly when its id is new, its sequence above the mark, policy allows it and nothing fails |
| OfflineSync.EveryCommandAnsweredOnce | backend/api/offline_sync_api.py:99-198 | accepted plus rejected answers every command once, exactly when the activity log failed for no command that was inserted |
| OfflineSync.AcceptedIsStored | backend/api/offline_sync_api.py:149-176 | an accepted command is stored with its hash or the computed one and the acknowledged state, and if it was new with its sequence, payload and context and the batch's device and actor |
| OfflineSync.ReplayIsSafe | backend/api/offline_sync_api.py:99-176 | resending after any later batches inserts nothing; the same acknowledgement exactly for commands with a hash |
| OfflineSync.AscendingBatchKeepsOrder | backend/api/offline_sync_api.py:91-133 | a sorted batch keeps a device's entries in order |
| OfflineSync.OrderKeptIffInsertedAscend | backend/api/offline_sync_api.py:91-133 | any batch, with resent, refused and failed commands, keeps the order exactly when its inserted commands ascend |
| OfflineSync.OrderKeptIffAscending | backend/api/offline_sync_api.py:91-133 | a batch of new commands keeps them in order exactly when it is sorted |
| OfflineRaces.AloneIsSync | backend/api/offline_sync_api.py:91-176 | a batch that nobody interrupts leaves the journal and the verdicts of the specified loop |
| OfflineRaces.RacesKeepJournal | backend/db/indexes.py:301-306 | over every interleaving of batches ids stay unique, every entry is a batch's command above the mark that batch read, and the ground of each verdict keeps holding |
| OfflineRaces.RacesOnlyGrow | backend/api/offline_sync_api.py:91-176 | over every interleaving entries never change and no mark falls |
| OfflineRaces.RacingReplayIsSafe | backend/api/offline_sync_api.py:99-176 | over every interleaving, resending a finished batch inserts nothing and repeats an acknowledgement exactly for commands with a hash |
| OfflineOrder.SoleBatchRaisesMarkIff | backend/api/offline_sync_api.py:91-97 | a batch that runs while no other of its device does raises the mark exactly if it inserts something, whatever other devices do |
| OfflineOrder.SerialSortedKeepsOrder | backend/api/offline_sync_api.py:91-133 | one sorted batch of a device at a time keeps its entries in order over every interleaving |
| OfflineOrder.AlwaysOrderedIff | backend/api/offline_sync_api.py:91-133 | for any batches: every interleaving keeps the device in order exactly when whatever can be inserted before another command has a lower sequence |
| OfflineOrder.TwoCommandsNeverOrdered | backend/api/offline_sync_api.py:91-97 | two overlapping batches of one new command each can break the order, whatever their sequences |
| CountLineChains.PlacesAgreeIff | backend/services/canonical_inventory.py:170-176 | the duplicate check looks where the line is stored exactly when floor and rack are numbered or left out |
| CountLineRuns.CoherentViewsAgree | backend/api/count_lines_routes.py:538-550 | when ids and numbers agree, stored place, looked-up place and location lock are one |
| CountLineChains.CountLineApi.AcquireLock | backend/services/locking/mongo_service.py:44-92 | granted when free or already held by the same owner |
| CountLineChains.CountLineApi.ReleaseLock | backend/services/locking/mongo_service.py:94-105 | deletes only the caller's own lock |
| CountLineChains.CountLineApi.AcquireLocks | backend/api/count_lines_routes.py:553-584 | both locks, or the variant lock left behind when the location lock is refused |
| CountLineChains.CountLineApi.ReleaseLocks | backend/api/count_lines_routes.py:587-594 | releases both own locks |
| CountLineChains.CountLineApi.FindDuplicate | backend/services/canonical_inventory.py:189-204 | a live line at the looked-up place, None exactly when there is none |
| CountLineChains.CountLineApi.FindClash | backend/services/count_lines/validation.py:319-330 | whether another stored line has the same fingerprint |
| CountLineChains.CountLineApi.PersistLine | backend/api/count_lines_routes.py:747-781 | the two writes, each refused or stored; the first stays when the second fails, and where there are transactions neither does |
| CountLineChains.CountLineApi.CreateCountLine | backend/api/count_lines_routes.py:845-873 | with both locks, a duplicate is reported exactly when the line found is not rejected or not the one named; the writes are refused exactly for a missing place, a version or an equal line; the new line says what was counted, the target is superseded and nothing else changes; all as its events in the interleaved system, and with transactions nothing is stored |
| CountLineChains.LockTable | backend/api/count_lines_routes.py:553-584 | both locks are granted exactly when nobody else holds either, and no other lock changes |
| CountLineChains.ReleaseTable | backend/api/count_lines_routes.py:587-594 | a release takes away the caller's own hold on its keys and nothing else |
| CountLineChains.LocationLockText | backend/api/count_lines_routes.py:538-550 | the location lock is session, item, and the ids of floor and rack or their numbers |
| CountLineRecounts.CheckTable | backend/api/count_lines_routes.py:597-613 | the duplicate check lets a request on as a first count exactly when nothing is live where it looks, and as a recount exactly when the line found is rejected and named by it |
| CountLineRecounts.RecountsFollowRejected | backend/services/canonical_inventory.py:207-217 | over every interleaving, whatever a stored recount follows was found live where its request looked, rejected, and named by that request |
| CountLineRecounts.SupersededWereRejected | backend/api/count_lines_routes.py:763-780 | and so was every line that is ever superseded by a recount |
| CountLineRuns.CheckInforms | backend/api/count_lines_routes.py:597-613 | a passed check knows the one live line at the place, named by the recount, or that there is none |
| CountLineRuns.AcceptedIsReady | backend/services/count_lines/validation.py:297-330 | an insert that is not refused finds its target live, or no live line at its place |
| CountLineRuns.InsertKeepsStore | backend/api/count_lines_routes.py:628-639 | a stored line links to its target, raises the iteration, keeps fingerprints unique and adds one live line for what it owes |
| CountLineRuns.RetireKeepsStore | backend/api/count_lines_routes.py:763-780 | superseding the target settles what the recount owed |
| CountLineRuns.StepKeepsInv | backend/api/count_lines_routes.py:597-781 | whatever the locks do: while requests past their locks are for different places, or alike and nothing is edited, every step keeps the chains, failed writes included |
| CountLineRuns.InterleavingsKeepChains | backend/api/count_lines_routes.py:553-781 | over every interleaving in which requests for one place share a location lock and no user competes with itself: one live line at each counted place and one more for every stored recount that has not superseded its target; links, places and iterations in order |
| CountLineRuns.OneLiveIffNothingOwed | backend/api/count_lines_routes.py:759-781 | there is one live line per place, with inverse links, exactly when every stored recount has superseded its target |
| CountLineRuns.OnlyOwnTargetBeside | backend/api/count_lines_routes.py:759-781 | while no recount failed in between, the only extra live line is a new line beside its own target, its request in flight |
| CountLineRuns.FailedRecountStays | backend/services/count_lines/session_aggregator.py:273-301 | a recount that failed in between leaves two live lines for good |
| CountLineRuns.CoherentRequestsKeepChains | backend/api/count_lines_routes.py:538-550 | in particular for requests whose ids are their numbers |
| CountLineRuns.ChainsAreAcyclic | backend/api/count_lines_routes.py:628-639 | a line of iteration n has exactly n predecessors, so no line precedes itself |
| CountLineVersions.OnlyEditsMoveVersions | backend/api/count_lines_routes.py:2012-2024 | a stored line stays, and its version moves by one with each of its own edits |
| CountLineVersions.LinkRaisesVersionByOneIff | backend/services/count_lines/validation.py:278-317 | over every interleaving a recount is stored one version above its target as it stands then; a link raises the version by one exactly when both lines were edited equally often since |
| CountLineVersions.VersionsRiseWithoutEdits | backend/api/count_lines_routes.py:636-638 | without edits every link raises the version by one |
| CountLineLocks.GuardedRunsKeepChains | backend/services/locking/mongo_service.py:44-105 | over every interleaving of guarded requests, with repeats and failures, the chains are kept |
| CountLineLocks.OneLineStaysLiveIff | backend/services/count_lines/validation.py:67-88 | for any requests, with or without edits in between: no interleaving ever has a second live line that is not owed exactly when any two for one place are alike (if nothing is edited), or look where they store and are protected by a lock |
| CountLineLocks.TwoRequestsKeepOneIff | backend/services/locking/mongo_service.py:67-92 | two requests alone keep one live line in every interleaving exactly when different users share a lock or, without edits, the counts are alike |
| CountLineLocks.ThirdRequestFreesLock | backend/services/locking/mongo_service.py:84-87 | a third request of one of the users undoes a shared variant lock |
| CountLineLocks.FailedRecountLeavesTwo | backend/services/count_lines/session_aggregator.py:273-301 | any count and its recount: a session write between the two writes leaves both lines live and nobody in flight |
| CountLineLocks.SubmissionKeepsOneIff | backend/api/count_lines_routes.py:845-873 | on any store, an uninterrupted request that passed its check keeps one live line exactly when its insert is refused, or the line live at the stored place, if any, is the one found and is superseded |
| QuantityEdits.StoredLine.FindOneAndUpdate | backend/api/count_lines_routes.py:2008-2036 | writes exactly when the version that was read still stands, and then shows the edit on the stored line |
| QuantityEdits.StoredLine.Apply | backend/api/count_lines_routes.py:2081-2145 | an uninterrupted request commits and shows its edit, unless it asks for nothing or its user may not edit the line |
| QuantityEdits.EditsSerialize | backend/api/count_lines_routes.py:2008-2036 | over every interleaving the line is the serial replay of the commits and the version counts them, from the first commit on where there was none |
| QuantityEdits.CommitSucceedsIffCurrent | backend/api/count_lines_routes.py:2121-2145 | for every line, a commit succeeds exactly when nothing was committed since its read or it read the line before it had a version |
| QuantityEdits.EveryCommitShows | backend/api/count_lines_routes.py:2008-2036 | over every interleaving a commit goes through exactly when the version it read, if any, still stands, and then shows its edit: quantity, variance, batches and version |
| QuantityEdits.StaleCommitsIffUnversioned | backend/api/count_lines_routes.py:2008-2010 | some interleaving commits on a line it has not seen exactly when the line started without a version |
| QuantityEdits.NoAdditionIsLost | backend/api/count_lines_routes.py:2012-2024 | committed additions add up in quantity and variance |
| QuantityEdits.VarianceMatchesLineIff | backend/api/count_lines_routes.py:2102-2108 | exactly when the stored variance is the quantity minus the line's baseline |
| CountLinePages.FilterPage | backend/api/count_lines_routes.py:1479-1489 | the one-pass loop counts all matches and keeps those on the page |
| CountLinePages.FilteredInOrder | backend/api/count_lines_routes.py:1479-1489 | the list holds the projected lines of the wanted review state, each once, in cursor order |
| CountLinePages.ListPage | backend/api/count_lines_routes.py:1473-1502 | the page is the slice of the filtered, capped list, with its totals |
| CountLinePages.PagesPartition | backend/api/count_lines_routes.py:1494-1500 | pages concatenate to the list, none empty or too long, a next page exactly before the last |
| Reconciliation.Summarize | backend/api/reconciliation_api.py:144-187 | the loop's counts and sums; matched plus varying is all; gap is variance minus drift |
| Reconciliation.ActiveExactly | backend/api/reconciliation_api.py:68-77 | the reported lines are those of the session that nothing supersedes |
| Reconciliation.RowsBelong | backend/api/reconciliation_api.py:79-129 | every row is of a counted item and one of its ERP items, or none if it has none: total, greatest baseline, stock, and a conflict exactly for two different baselines |
| Reconciliation.ItemsHaveRows | backend/api/reconciliation_api.py:101-111 | and every counted item has such a row with each of its ERP items |
| Reconciliation.BaselineIsMaximum | backend/api/reconciliation_api.py:84-85 | the baseline is the greatest of the group's, and the value set is the group's |
| Reconciliation.TotalsConserved | backend/api/reconciliation_api.py:66-112 | item totals add up to the active quantity, once per ERP item of the code, exactly once with unique codes |
| Reconciliation.OrderDoesNotMatter | backend/api/reconciliation_api.py:138 | sorting changes no statistic |
| Reconciliation.RecountMovesTotal | backend/api/reconciliation_api.py:66-87 | superseding a line and adding its recount moves the item's total by new minus old and no other |
| Reconciliation.PersistIsRecount | backend/api/count_lines_routes.py:763-780 | persisting a recount is that change of the reported lines |
| Reconciliation.PersistMovesTotal | backend/api/count_lines_routes.py:763-780 | so both writes of a recount move the reported total by new minus old |
| Reconciliation.FailedRecountCountsTwice | backend/api/count_lines_routes.py:759-781 | the first write alone moves it by the whole new quantity |
| ItemVerification.VerificationApi.UpdateOne | backend/api/item_verification_api.py:406-422 | writes exactly when the stock that was read, if known, still stands |
| ItemVerification.VerificationApi.VerifyItem | backend/api/item_verification_api.py:674-741 | an uninterrupted request does what `VerifyTable` says |
| ItemVerification.VerifyTable | backend/api/item_verification_api.py:593-741 | a request is refused, or forked exactly when it disagrees with a verified item, or stores its quantities with verified plus damaged minus the stock, answers and logs the same, and enters the variances exactly if that is not zero |
| ItemVerification.StepTable | backend/api/item_verification_api.py:406-463 | with reads and commits apart, each step's effect on the item: a commit goes through exactly when the stock it read, if any, still stands |
| ItemVerification.LogsAgree | backend/api/item_verification_api.py:728-733 | over runs of uninterrupted requests the variances are exactly the logs with a present, non-zero variance |
| ItemVerification.LogsHoldTheSameIff | backend/api/item_verification_api.py:728-733 | with the two inserts apart, both hold the same material entries exactly when no request is or failed between them |
| ItemVerification.LogsAgreeInTurn | backend/api/item_verification_api.py:728-733 | and in the same order when no request overtakes another there |
| ItemVerification.OvertakingChangesOrder | backend/api/item_verification_api.py:728-733 | one overtaking is enough to change the order |
| ItemVerification.QuantityChangesOnlyUnverified | backend/api/item_verification_api.py:441-445 | a verified quantity changes only in a step that starts unverified |
| ItemVerification.VerifiedQuantityIsFrozen | backend/api/item_verification_api.py:441-445 | so it is frozen over every run until the item is unverified |
| ItemVerification.CommitVarianceIff | backend/api/item_verification_api.py:593-615 | a commit's variance is the one at the stock of that moment exactly when the stock was known or counts as zero |
| ItemVerification.VarianceTrueAtCommit | backend/api/item_verification_api.py:593-615 | over every interleaving with stock syncs the stored variance is verified plus damaged minus the stock at the moment of commit |
| ItemVerification.EveryCommitIsTrue | backend/api/item_verification_api.py:691-720 | each commit goes through exactly when the stock is what it was at the read, and stores its quantities and that variance |
| ItemVerification.OverwritesIff | backend/api/item_verification_api.py:691-720 | over every interleaving, a commit replaces a verified quantity exactly when it goes through and conflicts with what is stored; then the item was not verified with that quantity when read |
| ItemVerification.SilentOverwriteIff | backend/api/item_verification_api.py:691-720 | for any requests: some interleaving replaces a verified quantity without a fork exactly when the item can stand unverified and two requests collide |
| LookupCache.ItemService.FindOne | backend/api/enhanced_item_api.py:412-424 | finds the item the key reaches |
| LookupCache.ItemService.FindNamed | backend/api/item_verification_api.py:325-334 | finds an item by barcode or item code, None exactly when there is none |
| LookupCache.ItemService.FetchWithFallback | backend/api/enhanced_item_api.py:393-435 | the cache first, then the database |
| LookupCache.ItemService.GetEnhanced | backend/api/enhanced_item_api.py:288-333 | resolves the source and caches a stripped copy |
| LookupCache.LookupExactly | backend/api/enhanced_item_api.py:412-424 | an item is found by its barcode, item code or any alias and by nothing else |
| LookupCache.StrippedExactly | backend/api/enhanced_item_api.py:111-126 | the cached copy loses the four contextual fields and nothing else |
| LookupCache.ItemService.InvalidateItemCache | backend/api/item_verification_api.py:370-383 | evicts the barcode and the resolved code |
| LookupCache.ItemService.UpdateItemMaster | backend/api/item_verification_api.py:494-512 | changes the given fields of the item named, if it has an item code, and nothing else, and evicts in any case |
| LookupCache.NamesEvicted | backend/api/item_verification_api.py:337-383 | every name of an updated item is evicted |
| LookupCache.CacheIsTransparent | backend/api/enhanced_item_api.py:393-435 | after any run, a fallback lookup gives the database's item up to contextual fields |
| LookupCache.UpdateKeepsTransparentIff | backend/api/item_verification_api.py:370-383 | from any transparent state, an update keeps it so exactly when it hits nothing, alters nothing, or the item is cached under its barcode and code only |
| LookupCache.AlwaysTransparentIff | backend/api/enhanced_item_api.py:412-424 | all runs are transparent exactly when no item with a code can be reached by anything but code and barcode |
| LookupRaces.FillIsRightIff | backend/api/enhanced_item_api.py:288-333 | a fill leaves the cached copy right exactly when the item is then what it was when read |
| LookupRaces.UndisturbedRacesAreTransparent | backend/api/item_verification_api.py:503-512 | over every interleaving in which no lookup of an item overlaps the time from an altering write to its eviction, whatever is cached is right or about to be evicted |
| LookupRaces.LookupBeforeEviction | backend/api/item_verification_api.py:503-512 | a lookup between write and eviction puts the stale copy back although nothing is altered while it runs |
| LookupRaces.AlwaysTransparentIffNothingUpdatable | backend/api/enhanced_item_api.py:260-268 | over all interleavings the cache is transparent whenever nothing is under way exactly when updates can hit no item |
| SqlGuard.FoundIffWord | backend/sql_server_connector.py:294-296 | a word is found between word boundaries exactly when it is a maximal word run |
| SqlGuard.NormalizationKeepsWords | backend/sql_server_connector.py:310-311 | collapsing, stripping and upper-casing keep the words up to case |
| SqlGuard.GuardExact | backend/sql_server_connector.py:305-332 | the guard allows exactly texts with a query prefix, no semicolon and no denied word in any case |
| SqlGuard.AllowedQueriesAreReads | backend/sql_server_connector.py:285-332 | what is allowed starts with the word SELECT or WITH and holds no denied word |
| SqlGuard.ConnectorGuardExact | backend/sql_server_connector.py:305-332 | both, for the connector's own list of words |
| SqlGuard.RefusalsMean | backend/sql_server_connector.py:285-332 | which refusal is given for which text |
| SqlText.NormalizedIsFields | backend/sql_server_connector.py:311 | the normal form is the text's fields upper-cased with one blank between them |
| SqlText.QueryIff | backend/sql_server_connector.py:285-288 | a text passes as a query exactly when its first field is SELECT or WITH in some case and another follows |
| SqlGuard.StripBlocksRemovesAll | backend/sql_server_connector.py:275 | after the block-comment pass no opener has a closer; the pass is idempotent and changes exactly texts that had one |
| SqlText.StripsFirstBlock | backend/sql_server_connector.py:275 | the first comment up to its first closer becomes one blank, what stands before stays, and the rest is treated alike |
| MissingBarcodes.FindMissingRanges | scripts/find_missing_barcodes.py:125-145 | the scan returns separated ranges covering exactly the missing barcodes, for any bounds |
| MissingBarcodes.RangesAreUnique | scripts/find_missing_barcodes.py:125-145 | separation and cover leave only one answer |
| MissingBarcodes.ReportedCountExact | scripts/find_missing_barcodes.py:156-158 | the reported count is right exactly when every existing barcode lies inside |

## Left out

- Approval log: file locking, line decoding and its errors, archiving of legacy logs, missing or mistyped fields, the extra fields `cwd` and `source`, and the parsing of command output; an entry is a record with all its fields, and output arrives parsed.
- Approval gate: the shell that runs the command; starting a run is its executed entry.
- Command risk: whether a resolved path exists is frozen during a run.
- Offline sync: the activity log's own contents, and HTTP errors raised inside the loop.
- Count lines: idempotency keys; requests are those that send none.
- Count lines: governance and variance rules, the session's state, risk flags, drafts and the validation after a write; a request that fails for one of them is a release, before, between or after its writes.
- Count lines: the steps inside one write; its checks and what it stores are one step.
- Count lines: lock expiry; a lock is held until it is released.
- Count lines: deletion, merging, and the routes that approve or reject; a line's status may change to anything but superseded at any time.
- Quantity edits: the fields the write service adds to an update, session totals, and the refusal of an edit that would give the line another line's fingerprint (`CountLineChains.Enabled` has it).
- Listing: the unfiltered branch, which leaves skip and limit to the database, and how a line's review state is computed.
- Reconciliation: names, barcodes, dates, locations and prices carried along; `$sort` is any order of the rows.
- Item verification: refreshing an item from SQL Server, and the fields that only describe a verification.
- Lookup cache: search results, SQL sync, and case-insensitive item codes (the enhanced lookup takes numeric keys).
- SQL guard: line comments, string literals, quoted and bracketed identifiers, parameter checks, and non-ASCII text; the guard is stated for the sanitised text.
- Barcodes: fetching the existing barcodes and the report's wording.
