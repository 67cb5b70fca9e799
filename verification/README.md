# Verified model of the desktop kernel's durable state

A Dafny model of the parts of this repository that must not lose or invent anything: the deletion journal that desktop
readers page through, the pairing of tool calls and results in provider history, the durable conversation plan, the
crash-safe activation store, mission budgets and intent lineage, and four algorithms with simple specifications.
`dafny verify dfyconfig.toml` checks the whole project.

Each source object that updates its fields is a class whose methods are proved equal to functions of the old state; the
properties are lemmas about those functions, over all inputs, all reachable states or all runs. A process that may be lost
is modelled by how many durable steps it takes, and how much of its last write is stored. Digests are injective.

| files | what they model |
|---|---|
| Tombstones, TombstoneRuns, TombstoneQueue | the deletion journal, runs beside the catalog, and mutations that run later than they were called |
| Transcript, HistoryMatching, HistoryEmission, HistoryTheorems, HistoryShape, ActiveContext | a transcript, what compaction leaves of it, and the provider history made from it |
| WorkText, ConversationPlan, ConversationWork, PlanAcceptance, PlanValidation, SnapshotAcceptance, PlanTheorems, PlanRoundTrip, PlanRuns | the conversation plan, what it accepts, its printed form and its journal |
| Authority, MissionBudget, AuthorityLineage, LineageRuns | mission counters and authenticated intents |
| Evidence, ActivationPreparation, ActivationCrash | preparing an activation, and recovering one |
| ActivationJournal, ActivationRegistration, VerdictRules, ActivationVerdicts, ActivationRecognition | the phase journal, selecting and rolling back a registration, and classifying what was left |
| RetirementEvidence, RetirementCleanup, RetirementRules, RetirementRuns, ReceiptRotation, RotationRules | retiring an activation and archiving its receipts |
| Serialisation | codecs that meet what is asked of the journal's receipts and of the retirement's records |
| ConfigMerge, ConfigProvenance, CanonicalJson, Recency, ChildRetention | layered configuration, canonical text, recency-bounded stores, bounded retention |

Results that are not plain confirmations:

- A journal page computed from a catalog snapshot that is older than a created and prepared context reports that live
  context as deleted. `PageReportsLiveIffInReach` says before the call exactly which pages do, `SnapshotIsSafeIffItCovers`
  exactly which snapshots never do; `StalePageReportsLiveContext` is an instance.
- `addTask` and `updateTask` can persist a plan that the next start refuses, because they do not look at a completed or
  blocked goal. `ApplyExact` gives the exact condition; `AddTaskAfterCompletionIsNotRestorable` is an instance.
- A persist that reports failure after its record landed makes the next operation write the same revision again
  (`LandedButReportedFailedRepeatsRevision`). After a report the live plan is what a restart brings back exactly when the
  report was true (`ReportIsTrueIffRestorable`); runs are proved durable where reports are true.
- A torn append is accepted by the journal reader exactly when what was stored reads as a record within the reader's limit
  (`TornAppendTellsNoLie`); a receipt that loses only its final line feed does, and then it says what was being recorded
  (`FirstReceiptMayLoseItsLineFeed`).
- A leftover file of a child process lets a preparation begin; lost before its end, that preparation is never recovered.
  `EveryCrashIsRecovered` has the exact condition; `LeftoverChildBlocksRecovery` is an instance.
- A half-moved receipt pair is archived by a later run exactly when there are at most 32 archives; with 33 every run refuses
  (`HalfMovedPairFinishesIffWithinLimit`).
- A commit and witness written by retirement are accepted for admission exactly when the activation and its staging are
  different operations (`WrittenPairIsConsumed`); the command line and the orchestration require that before they start.
- A torn terminal commit or witness leaves retirement barred for good (`FinishesExactlyUnlessTorn`).
- An intent whose persisting fails while a later one is there stays live without a record (`RollbackOnlyWhileLatest`,
  `OverlappingFailureStaysLive`). `RebuiltIsLive` says exactly when the rebuilt intents are the live ones. A rollback takes back
  its own intent or none, because a conversation is cleared only between turns (`ClearedWhileWaitingTakesBackAnother`).
- Different configuration paths share one text exactly when their keys, split at dots, come to the same atoms
  (`SameTextIffSameAtoms`); a key with a dot and the two keys it splits into are an instance (`DottedKeysCollide`).
- The layer that names a route's provider is recorded as the owner of a selection that the merged tree may not have, so there
  the winners are more than the leaves (`SelectionOwner`).
- Projecting an active context twice repeats what the compaction retained (`ProjectingTwice`).

## Model

| member | source | states |
|---|---|---|
| Tombstones.ReadJournal | src/desktop-activity-tombstones.js:58-97 | a file reads as a journal exactly when it is well formed for its owner; a missing one reads as empty |
| Tombstones.DesktopActivityTombstones.Prepare | src/desktop-activity-tombstones.js:128-151 | the loops that reconcile, prune and append leave exactly the prepared journal, written only if the write succeeds |
| Tombstones.DesktopActivityTombstones.Commit | src/desktop-activity-tombstones.js:152-169 | settles the entry of the receipt and no other; a failed write changes nothing |
| Tombstones.DesktopActivityTombstones.BeforeCreateSession | src/desktop-activity-tombstones.js:170-202 | in each journal a retained entry of the id refuses the call where reuse is to be prevented, an intent of a live context always does; otherwise every intent of the id becomes a deletion and nothing else changes; what the first pass settled stays so if the second is refused |
| Tombstones.PreparedExact | src/desktop-activity-tombstones.js:128-151 | entry by entry what a prepare answers and leaves: refused, the open intent found again, or one added and the oldest deletion dropped where it is full |
| Tombstones.CommittedExact | src/desktop-activity-tombstones.js:152-169 | entry by entry what a commit answers and leaves |
| Tombstones.DesktopActivityTombstones.ReadPage | src/desktop-activity-tombstones.js:203-231 | the page read in place is the page of the owner's journal, and reading changes nothing |
| TombstoneRuns.StepKeepsInv | src/desktop-activity-tombstones.js:117-202 | every step keeps entries contiguous from floor + 1 to nextSequence - 1 and at most 256, and every deleted or pruned entry really gone |
| TombstoneRuns.PrepareIssuesReceipt | src/desktop-activity-tombstones.js:128-151 | a preparation that succeeds issues the sequence of an intent for that very context |
| TombstoneRuns.CommittedNeverFails | src/desktop-activity-tombstones.js:152-169 | committing an issued sequence never fails, pruned or not |
| TombstoneRuns.PageExact | src/desktop-activity-tombstones.js:203-231 | outside the retained range a page is a gap; inside, it is exactly the entries after the cursor up to its nextCursor, stopping before the first live intent |
| TombstoneRuns.ReaderMissesNothing | src/desktop-activity-tombstones.js:80-231 | over every run a reader that never saw a gap has every deletion up to its cursor, once, in order and real |
| TombstoneRuns.FirstReaderMissesNothing | src/desktop-activity-tombstones.js:58-231 | the same for every run that starts with no journal file and a reader at zero |
| TombstoneRuns.PageDrains | src/desktop-activity-tombstones.js:214-231 | with no live intent left a page shows all that remains, up to its limit |
| TombstoneRuns.CatalogPageIsExact | src/desktop-activity-tombstones.js:214-231 | a page of the current catalog shows the deletions up to the first context that is there, and is a gap exactly where one comes first and a deletion is behind it |
| TombstoneRuns.PageReportsLiveIffInReach | src/desktop-activity-tombstones.js:214-231 | before the call: a page will report a live context exactly when, within its limit of the cursor, an intent of one stands behind none that the snapshot shows as current |
| TombstoneRuns.SnapshotIsSafeIffItCovers | src/desktop-activity-tombstones.js:203-231 | no page, at any cursor and limit, reports a live context exactly when every intent of a live context is current in the snapshot |
| TombstoneRuns.StalePageReportsLiveContext | src/desktop-engine-host.js:400-416 | a snapshot older than a created and prepared context makes a page report that context as deleted |
| TombstoneQueue.InterleavingKeepsInv | src/desktop-activity-tombstones.js:113-127 | mutations called with one catalog and run later behind the promise chain are always ones a run allows |
| TombstoneQueue.InterleavedReaderMissesNothing | src/desktop-activity-tombstones.js:113-231 | with calls, later runs and catalog changes interleaved, a reader that saw no gap still missed nothing |
| Transcript.PairedToolRecords | src/context.js:83-104 | the one-pass queues pair exactly the requests and results that FIFO by call id pairs |
| Transcript.PartnerIsEarlier | src/context.js:83-104 | a result answers an earlier request of its own id |
| Transcript.PairingKeepsOrder | src/context.js:83-104 | of one id, later results answer later requests |
| Transcript.PartnerInjective | src/context.js:83-104 | no request is answered twice |
| Transcript.NoRequestSkipped | src/context.js:83-104 | a paired request leaves no older request of its id unpaired |
| HistoryMatching.FifoIsMatching | src/context.js:83-104 | FIFO pairing is an order-respecting matching of results to earlier requests of their id |
| HistoryMatching.KthResultAnswersKthRequest | src/context.js:83-104 | the k-th paired result of an id answers the k-th request of that id |
| HistoryMatching.FifoIsMaximal | src/context.js:83-104 | no order-respecting matching pairs more records |
| HistoryEmission.ToolRequestGroups | src/context.js:106-121 | groups hold exactly the paired requests of each step, in order |
| HistoryEmission.AppendTranscriptMessages | src/context.js:37-81 | the one-pass emission appends the history that is defined record by record |
| HistoryTheorems.EveryPairedRequestOnce | src/context.js:37-121 | the emitted calls are exactly the paired requests, each once |
| HistoryTheorems.EveryPairedResultOnceAfterItsCall | src/context.js:37-121 | the emitted results are exactly the paired results, each once, in order, after the call each answers |
| HistoryTheorems.EveryTextOnceInOrder | src/context.js:37-81 | the text of each message, compaction and checkpoint appears once, in ledger order |
| HistoryTheorems.NoPrefixHasMoreResults | src/context.js:37-121 | in every prefix an id has at most as many results as calls |
| HistoryTheorems.TotalsAgree | src/context.js:37-121 | at the end an id has as many results as calls |
| HistoryShape.EveryMessageIsOneStep | src/context.js:37-121 | each message carries the paired requests of one turn and step and no other, with the text of the first assistant message of that step if it comes before them, and messages stand in ledger order |
| HistoryShape.SameStepIsSameIds | src/context.js:118-121 | of turn ids without a null character the same step text is the same turn and step |
| ActiveContext.ActiveContextRecords | src/context.js:223-232 | the latest compaction, what it retained and what follows it; the transcript itself where there is none or it retained nothing |
| ActiveContext.TailIsKept | src/context.js:223-232 | nothing after the latest compaction is lost or moved |
| ActiveContext.ProjectingTwice | src/context.js:223-232 | projecting again repeats the retained records, so it changes nothing exactly when none were retained |
| WorkText.BoundedTextIsClean | src/conversation-work.js:362-369 | accepted text is trimmed, not empty and within its bound |
| WorkText.BoundedTextExact | src/conversation-work.js:362-369 | text is accepted exactly when it is within its bound and not all white space, and is kept without the white space around it |
| PlanAcceptance.ReplacePlanExact | src/conversation-work.js:138-180 | what a supplied plan is refused for, in order, over its revision, texts, ids, statuses and the room for numbers, and otherwise exactly what it leaves |
| PlanAcceptance.PlanWithoutIdsIsAccepted | src/conversation-work.js:382-428 | a plan whose items have no ids is accepted and its tasks are numbered from the counter on |
| PlanAcceptance.EveryOpIsExact | src/conversation-work.js:45-247 | every operation is refused for exactly the stated reason, first one first, and otherwise leaves exactly the stated plan |
| ConversationWork.ConversationWork.Commit | src/conversation-work.js:249-282 | a change waits for its persist and is refused while another is in progress; nothing live changes before |
| ConversationWork.ConversationWork.SettlePersist | src/conversation-work.js:249-282 | the live plan becomes the persisted one, or stays as it was |
| ConversationWork.ConversationWork.CompleteGoal | src/conversation-work.js:64-90 | completing or staging a goal starts exactly the specified change, with every refusal |
| ConversationWork.ConversationWork.ReplacePlan | src/conversation-work.js:138-180 | checking, numbering and committing a plan by its loops is the specified replacement |
| ConversationWork.ConversationWork.UpdateTask | src/conversation-work.js:231-247 | changing a task starts exactly the specified change, with every refusal |
| ConversationWork.NormalizePlanByTraversal | src/conversation-work.js:382-428 | the traversal with its counters accepts and returns what the recursive check does |
| PlanValidation.ValidateSnapshotExact | src/conversation-work.js:289-360 | a sound snapshot is accepted if and only if goal and tasks agree, and is then returned unchanged |
| SnapshotAcceptance.EverySnapshotIsExact | src/conversation-work.js:289-360 | any snapshot is read back exactly when its numbers, ids, texts, statuses and pending completion are as they have to be, and then as itself less white space |
| PlanTheorems.NormalizedPlanIsGood | src/conversation-work.js:382-428 | an accepted plan has clean texts, known ids used once, at most one task in progress and a goal that agrees |
| PlanTheorems.ApplyKeepsSound | src/conversation-work.js:45-247 | every operation steps the revision by one and keeps a state sound, whether goal and tasks agree or not; after any but addTask and updateTask they do agree |
| PlanTheorems.ApplyExact | src/conversation-work.js:45-247 | from a restorable state the result can be restored, as itself, exactly when an addTask or updateTask met its condition before the call |
| PlanTheorems.AddTaskAfterCompletionIsNotRestorable | src/conversation-work.js:214-229 | adding a task to a completed goal gives a state that validation refuses |
| PlanTheorems.StagedThenCommittedIsDirect | src/conversation-work.js:182-212 | staging a completion and committing it is completing directly, save the reference and one revision |
| PlanTheorems.StagedPlanThenCommittedIsDirect | src/conversation-work.js:138-194 | the same for a completion staged by replacing the plan |
| PlanTheorems.PendingIsCancelledOrReplaced | src/conversation-work.js:64-247 | while a completion is pending the tasks are its tasks, all completed; any other committed edit cancels or replaces it |
| PlanTheorems.TaskIdsAreNeverReused | src/conversation-work.js:138-247 | between clears no task id is given to a second task, from any sound state and under any operations |
| PlanRoundTrip.PrintableExact | src/conversation-work-projection.js:29-66 | a sound state can be printed exactly when goal and tasks agree and its revision can be counted exactly |
| PlanRoundTrip.PrintingIsExact | src/conversation-work-projection.js:4-66 | any state is printed exactly when its ids, texts, statuses and goal are as they have to be, and then as itself in the form of a supplied plan |
| PlanRoundTrip.PrintedPlanRoundTrip | src/conversation-work-projection.js:4-27 | a printed plan passed back unchanged keeps objective, statuses, evidence, titles, order and ids |
| PlanRoundTrip.SuppliedIdIsAssignedId | src/conversation-work.js:138-180 | any id or provisional label that is accepted is the id the task then has |
| PlanRuns.RunKeepsInv | src/conversation-work.js:249-282 | under calls, landings, failures, clears and restarts in any order the journal and the live plan stay in step |
| PlanRuns.EveryRunIsDurable | src/conversation-work.js:27-43 | revisions are consecutive, restore gives the last persisted plan, that is the live one when nothing is in progress, and no committed operation is lost |
| PlanRuns.ReportIsTrueIffRestorable | src/conversation-work.js:249-282 | after a persist was reported the live plan is what a restart brings back exactly when the report was true |
| PlanRuns.LandedButReportedFailedRepeatsRevision | src/conversation-work.js:249-282 | a persist that landed but reported failure makes the next operation repeat its revision |
| Authority.AuthorityRecord.AuthorizeMissionTurn | src/authority.js:135-155 | a turn is authorised exactly within the mission's window, duration, credentials and bound, still so when it is looked at again; which refusal comes first, and what the usage then is |
| Authority.AuthorityRecord.ReserveMissionToolCalls | src/authority.js:164-170 | tool calls are reserved only within the bound |
| Authority.AuthorityRecord.RollbackMissionTurn | src/authority.js:177-184 | gives back one turn, and the start time with the last |
| Authority.AuthorityRecord.Restore | src/authority.js:75-98 | the usage of each mission is at least all of its records and no more than some record says; an invalid record refuses all and changes nothing |
| MissionBudget.EventKeepsInv | src/authority.js:294-317 | reserving, landing, acknowledging, failing and restarting keep the rebuilt usage above what is settled |
| MissionBudget.RollbackGivesBack | src/authority.js:171-184 | no rollback of a flight is rejected, and it gives back exactly what that flight reserved |
| MissionBudget.RestartNeverRefills | src/authority.js:49-98 | in every run the rebuilt usage covers all that was acknowledged, within the bounds, and once the last record in flight has landed also the live usage, started no later |
| AuthorityLineage.AuthorityRecord.AddAuthenticatedIntent | src/authority.js:17-32 | appends the intent with the next sequence and counts restrictions |
| AuthorityLineage.AuthorityRecord.RollbackAuthenticatedIntent | src/authority.js:41-47 | takes back the latest intent and no other |
| AuthorityLineage.AuthorityRecord.Restore | src/authority.js:49-98 | rebuilds the list from records of one lineage, or refuses and changes nothing |
| AuthorityLineage.RollbackUndoesAdd | src/authority.js:41-47 | taking back the intent just added undoes adding it |
| AuthorityLineage.RollbackOnlyWhileLatest | src/authority.js:287-292 | a failed intent is taken back exactly when none was added after it |
| AuthorityLineage.OverlappingFailureStaysLive | src/authority.js:287-292 | an intent that fails while a later one is there stays live and is not in the records |
| LineageRuns.EventKeepsInv | src/authority.js:17-104 | adding, landing, acknowledging, failing, restarting and clearing keep each live intent that of its own attempt |
| LineageRuns.EveryRollbackIsItsOwn | src/authority.js:287-292 | in every run a failure takes back its own intent, exactly when that is the latest, and never another |
| LineageRuns.RebuiltIsLive | src/authority.js:49-98 | what is rebuilt is what is live if records landed in the order of adding and each landed unless taken back; where no two say the same, only if |
| LineageRuns.SerialRunsAgree | src/authority.js:287-292 | so it is whenever one intent at a time is persisted and a failed persist leaves no record |
| LineageRuns.ClearedWhileWaitingTakesBackAnother | src/authority.js:41-104 | a clear while an intent waits would make its failure take back the first one added since |
| ActivationPreparation.PreparationStore.PrepareOwned | src/desktop-activation-preparation.js:159-193 | preparation takes exactly the specified durable steps, lost at any of them; where what it wrote does not verify it is refused and its row stays |
| ActivationPreparation.PreparationStore.RecoverRow | src/desktop-activation-preparation.js:137-155 | foreign or changed evidence, or a plan that its candidate does not determine, is refused and left; what is whole and verifies is prepared; otherwise only beginnings of planned files go |
| ActivationCrash.PrepareWritesLeave | src/desktop-activation-preparation.js:159-193 | lost in any step, even with a torn file, or refused at its end, preparation leaves nothing, a pending row over known prefixes, or all |
| ActivationCrash.RecoveryLeaves | src/desktop-activation-preparation.js:110-155 | recovery lost in any step leaves a state it can be run on again |
| ActivationCrash.EveryCrashIsRecovered | src/desktop-activation-preparation.js:137-193 | through any number of losses, a recovery that lives clears the row exactly when no child file stood at the start or nothing was lost inside; then everything is complete or nothing is left |
| ActivationCrash.LeftoverChildBlocksRecovery | src/desktop-activation-preparation.js:166-175 | over a leftover child file a preparation begins, and once lost no recovery changes anything |
| ActivationPreparation.PreparationStore.RecoverPreparation | src/desktop-activation-preparation.js:228-262 | recovers the row of the operation, or says without one whether the files are absent, exactly what the candidate there determines, or neither |
| ActivationCrash.EndIsRecognised | src/desktop-activation-preparation.js:228-262 | asked after its end, recovery says of a preparation which of the two ends it came to |
| ActivationCrash.PreparedWithoutRowIsComplete | src/desktop-activation-preparation.js:228-262 | where the files alone say prepared, every planned file is complete |
| ActivationCrash.TrialOnlyWhenComplete | src/desktop-activation-candidate.js:94-118 | no trial can be issued while the row is there, nor before everything is complete |
| ActivationJournal.ReadJournal | src/desktop-activation-journal.js:79-102 | the reader accepts exactly the chained directories and returns their receipts |
| ActivationJournal.JournalDirectory.AppendPhase | src/desktop-activation-journal.js:106-131 | appends one permitted phase, leaves part of its file where the process is lost, or leaves a file too long to read and no receipt |
| ActivationJournal.NamesAreConsecutive | src/desktop-activation-journal.js:83-102 | an accepted journal holds exactly the files 0 to n-1 |
| ActivationJournal.AppendExtends | src/desktop-activation-journal.js:106-131 | an append that fits leaves an accepted journal with the earlier receipts and the new one |
| ActivationJournal.TornAppendTellsNoLie | src/desktop-activation-journal.js:79-131 | a torn append is accepted by the reader exactly when what was stored reads as a record within the limit, and then says exactly what was being recorded |
| ReceiptCodec.CodecIsFaithful | src/desktop-activation-journal.js:33-62 | some codec is what the rows of the journal ask for: text reads back, and cut short it reads as nothing or as the same record |
| ReceiptCodec.FirstReceiptMayLoseItsLineFeed | src/desktop-activation-journal.js:79-131 | with it the first receipt of an operation is accepted without its line feed |
| ActivationJournal.AcceptedExact | src/desktop-activation-journal.js:43-102 | a directory is accepted exactly when each of its at most ten files is a bounded record of this activation with its own number, bound to the file before it, and the phases are a path |
| ActivationJournal.PathsAreCourses | src/desktop-activation-journal.js:15-27 | the paths are exactly the ways forward, each left for the way back, if at all, from one of the first six phases |
| ActivationJournal.AcceptedIsPath | src/desktop-activation-journal.js:15-27 | the phases of an accepted journal are a path from prepared |
| ActivationJournal.PlaceOfPhase | src/desktop-activation-journal.js:15-27 | each forward phase has one place in every path, and nothing follows a completed rollback |
| ActivationJournal.CapacityNeverBinds | src/desktop-activation-journal.js:54-62 | the limit of ten files cuts off no journal that may go on |
| ActivationJournal.SameLastReceiptSameJournal | src/desktop-activation-journal.js:79-102 | two accepted journals with the same last receipt digest are identical, file for file |
| ActivationRegistration.RegistrationStore.SelectUnderOwnership | src/desktop-activation-registration.js:77-113 | child evidence, swap and receipt in that order, lost or refused at any of them |
| ActivationRegistration.RegistrationStore.RollbackOwned | src/desktop-activation-rollback.js:84-121 | pending receipt, swap back and completion in that order, lost or refused at any of them |
| VerdictRules.VerdictExact | src/desktop-activation-reconciliation.js:50-127 | each verdict on a selection is given exactly when the stated files, receipts and process are there and no controller was published |
| VerdictRules.RollbackVerdictExact | src/desktop-activation-rollback-reconciliation.js:50-120 | the same for each verdict on a rollback |
| VerdictRules.SelectionMayBegin | src/desktop-activation-registration.js:77-83 | a selection begins exactly from a healthy trial whose files agree and whose prior registration stands; otherwise nothing changes |
| VerdictRules.RetreatMayBegin | src/desktop-activation-rollback.js:60-83 | a rollback begins exactly from a recorded selection of this very process that stands and was not published; otherwise nothing changes |
| ActivationVerdicts.EveryRunKeepsInv | src/desktop-activation-registration.js:77-113 | in every run receipts are true, a publication implies the child file, and a rollback its pending phase |
| ActivationVerdicts.SelectionVerdictIsTrue | src/desktop-activation-reconciliation.js:98-127 | not selected implies no swap took place, selected implies that it did and stands |
| ActivationVerdicts.RollbackVerdictIsTrue | src/desktop-activation-rollback-reconciliation.js:103-120 | restored implies the prior bytes are back, not published that the selected ones still stand |
| ActivationVerdicts.EveryVerdictIsTrue | src/desktop-activation-rollback-reconciliation.js:50-120 | at every point of every run both classifiers tell the truth, and never both speak |
| ActivationRecognition.VerdictAfterFirstAttempt | src/desktop-activation-reconciliation.js:98-127 | after a first attempt the verdict names the swap exactly when its receipt does |
| ActivationRecognition.VerdictBeforeAttempt | src/desktop-activation-reconciliation.js:98-127 | before the child file, not selected is concluded exactly when the prior bytes are not the wanted ones |
| ActivationRecognition.CompletedSelectionIsRecognised | src/desktop-activation-reconciliation.js:48-127 | a selection that reached its receipt is recognised as itself exactly when that receipt can be read, and otherwise nothing is concluded |
| ActivationRecognition.VerdictAfterFirstRetreat | src/desktop-activation-rollback-reconciliation.js:103-120 | after a first rollback the verdict is restored or not published exactly as its receipt says and its pending phase can be read |
| RetirementEvidence.WrittenPairIsConsumed | src/desktop-activation-initialization-db.js:64-96 | the pair that retirement writes is accepted for its owner exactly when activation and staging differ |
| RetirementEvidence.ConsumedWitnessIsTheOneWritten | src/desktop-activation-retirement-cleanup.js:160-169 | an accepted witness is the one written for its commit |
| RetirementCodec.FormatsAreFaithful | src/desktop-activation-retirement-cleanup.js:160-169 | some forms of commit and witness are what the rows of retirement ask for: both read back, and no commit begins another |
| RetirementCleanup.RetirementStore.Clean | src/desktop-activation-retirement-cleanup.js:63-76 | thirteen rounds remove what is left, one thing at a time, and succeed exactly when not stopped before the end |
| RetirementRules.VerifiesExact | src/desktop-activation-retirement-cleanup-files.js:53-88 | a step goes on exactly where plan, decision and marker are bound to one another and nothing but planned artifacts with their recorded content is left |
| RetirementRules.CleaningIsExact | src/desktop-activation-retirement-cleanup-files.js:89-99 | n removals take exactly n things, each an artifact with its recorded content, the directory last and empty |
| RetirementRules.CommittingIsExact | src/desktop-activation-retirement-cleanup.js:100-146 | a commit with exactly the stated fields is written, whole or torn, exactly over a verified bare store that has none |
| RetirementRules.ClearanceExact | src/desktop-activation-retirement-cleanup.js:170-210 | clearing goes on exactly where the commit is whole, canonical and of this retirement, the witness its own, each barrier as the commit has it, and nothing left |
| RetirementRules.WitnessingIsExact | src/desktop-activation-retirement-cleanup.js:211-240 | the witness is written exactly where the whole chain of evidence stands and gives that commit |
| RetirementRules.ClearingIsExact | src/desktop-activation-retirement-cleanup.js:211-259 | clearing leaves the store as it was, with a whole or torn witness, or with the witness and without the barriers that went behind it, in order, as far as the process lived |
| RetirementCleanup.RetirementStore.RecordTerminalCommit | src/desktop-activation-retirement-cleanup.js:100-146 | a commit is written only over a verified store with nothing left |
| RetirementCleanup.RetirementStore.ClearBarriers | src/desktop-activation-retirement-cleanup.js:211-259 | writes the witness, then removes decision, plan and marker, stopped after any of them |
| RetirementCleanup.ClearanceStands | src/desktop-activation-retirement-cleanup.js:170-259 | the witness, and each removal behind it, leave every later inspection with the same verdict |
| RetirementCleanup.RemovalKeepsVerified | src/desktop-activation-retirement-cleanup-files.js:53-99 | a removal takes exactly one thing and what remains still verifies |
| RetirementCleanup.NothingLeft | src/desktop-activation-retirement-cleanup-files.js:88-99 | the operation directory is empty before it is removed |
| RetirementCleanup.ThirteenRemovalsSuffice | src/desktop-activation-retirement-cleanup.js:63-76 | thirteen removals always leave nothing of what was planned |
| RetirementRuns.EveryRunKeepsInv | src/desktop-activation-retirement-cleanup.js:63-259 | the invariant behind the next two rows holds in every run |
| RetirementRuns.NoBarrierGoesEarly | src/desktop-activation-retirement-cleanup.js:170-259 | a commit means all is gone, a missing barrier the whole witness, the marker goes last, and admission opens exactly when all barriers are gone and the activation was not its own staging |
| RetirementRuns.FinishesExactlyUnlessTorn | src/desktop-activation-retirement-cleanup.js:170-259 | from every state one more pass finishes exactly when neither record was torn; else it changes nothing |
| ReceiptRotation.ReceiptStore.RotateOwned | src/desktop-activation-receipt-rotation.js:113-127 | repair, checks and the two renames are the specified run, lost at any rename |
| ReceiptRotation.ReceiptStore.RepairArchives | src/desktop-activation-receipt-rotation.js:63-83 | the loop over the archives puts half-moved members back, in whatever order they are listed |
| RotationRules.ConsumedExact | src/desktop-activation-initialization-db.js:64-96 | a pair is consumed exactly when commit and witness are canonical, bound to each other and of this owner |
| RotationRules.EvidenceBars | src/desktop-activation-initialization-db.js:97-115 | admission is barred exactly by other evidence, by one file without the other, or by a pair not consumed by the one who asks |
| RotationRules.RotationIsExact | src/desktop-activation-receipt-rotation.js:84-127 | with no half-moved pair a run archives a consumed pair whose registration agrees and whose archive is free, and refuses every other and moves nothing |
| RotationRules.UnfitHalfIsRefused | src/desktop-activation-receipt-rotation.js:63-83 | an archived member whose mate is not at its place, or whose place is taken, is never moved |
| RotationCrash.RepairRestores | src/desktop-activation-receipt-rotation.js:63-83 | of a half-moved pair the archived member, whichever it is, and nothing else, is put back |
| RotationCrash.RunStaysOnTheWay | src/desktop-activation-receipt-rotation.js:94-127 | from anywhere on the way another run stays on it, and finishes if it lives |
| RotationCrash.RotationLosesNothing | src/desktop-activation-receipt-rotation.js:51-127 | however often it is interrupted each file is in exactly one place with its bytes, admission is barred to the owner exactly while the pair is half moved, and a run that lives archives both |
| RotationCrash.HalfMovedPairFinishesIffWithinLimit | src/desktop-activation-receipt-rotation.js:51-62 | a half-moved pair is archived by the next run exactly when there are at most 32 archives |
| ConfigMerge.Winners.ClearWinners | src/configuration-sources.js:86-90 | removes exactly the winners at or below a path |
| ConfigMerge.Winners.Merge | src/configuration-sources.js:64-84 | gives the merged tree and, in the shared map, the layer's leaves over all that it does not clear; refuses reserved keys |
| ConfigMerge.Winners.RecordRouteSelectionWinners | src/configuration-sources.js:40-47 | makes the layer the owner of the selection of exactly the routes whose provider it names |
| ConfigMerge.ReservedExact | src/configuration-sources.js:68-71 | a source is refused exactly where some path in it ends with a reserved key |
| ConfigMerge.SelectsRouteExact | src/configuration-sources.js:40-47 | the selections a source owns are those of exactly the routes that it gives a provider or a connection |
| ConfigProvenance.MergedAt | src/configuration-sources.js:64-84 | at every path a merge has the layer's leaf where the layer decides, and else the base's |
| ConfigProvenance.LastWriterWins | src/configuration-sources.js:12-36 | folding the merge gives at every path what the last layer to decide it put there |
| ConfigProvenance.ResolveConfiguration | src/configuration-sources.js:12-26 | the loop gives the fold, and winners that name at every path the last layer to set it, unless a later one clears it |
| ConfigProvenance.WinnerIsLastWriter | src/configuration-sources.js:64-90 | away from the selections of routes the winner of a path is its last writer |
| ConfigProvenance.SelectionOwner | src/configuration-sources.js:40-47 | a layer owns a selection exactly when it names the provider or has a leaf there and no later layer sets or clears it |
| ConfigProvenance.WinnersAreTheLeaves | src/configuration-sources.js:64-90 | away from the selections of routes the winners' keys are exactly the merged leaf paths, each naming the layer that supplied its value; every leaf has a winner |
| ConfigProvenance.WinningSource | src/configuration-sources.js:128-140 | the walk over candidates and their ancestors finds the first owner |
| ConfigProvenance.WinningSourceExact | src/configuration-sources.js:128-140 | a path has the nearest name at it or above it, and a path of the first provider first that of its old name, as long as no list of providers was set |
| ConfigProvenance.OwnerIsUnique | src/configuration-sources.js:128-140 | away from the selections of routes a path has at most one owner at it or above it |
| ConfigProvenance.WalkFindsNearest | src/configuration-sources.js:128-140 | walking up finds the nearest winner with a name, wherever it starts |
| ConfigProvenance.WalkFindsTheOwner | src/configuration-sources.js:128-140 | away from the selections of routes walking up finds a name exactly when the one owner has it |
| ConfigPaths.SameTextIffSameAtoms | src/configuration-sources.js:72-72 | two paths have the same text exactly when their keys split at dots come to the same atoms |
| ConfigPaths.ClearedIffAtomPrefix | src/configuration-sources.js:86-90 | clearing a path clears exactly the paths that begin with its atoms |
| ConfigPaths.TextPrefixIsPathPrefix | src/configuration-sources.js:86-90 | for keys without dots the comparisons of texts are the comparisons of paths |
| ConfigPaths.DottedKeysCollide | src/configuration-sources.js:72-72 | a key with a dot shares its text with the two keys it splits into, wherever they stand, unless an empty one comes first |
| CanonicalJson.QuoteExact | src/canonical-json.js:21-29 | a string is written between quotes with exactly the escapes of section 7 of RFC 8259 that serialising uses |
| CanonicalJson.TextWithinDepth | src/canonical-json.js:10-20 | a value has a text exactly when nothing in it lies deeper than the bound |
| CanonicalDecoding.ReadingUndoesWriting | src/canonical-json.js:15-32 | a reader of the text gets back what the value means and leaves what follows |
| CanonicalDecoding.SameTextIffSameMeaning | src/canonical-json.js:15-32 | two values within the depth bound have the same text exactly when they are the same up to key order |
| CanonicalJson.SortedIsUnique | src/canonical-json.js:26-29 | one set of keys has one sorted order |
| Recency.ByLatestIsByLatest | src/desktop-activity-snapshot.js:79-90 | the order both stores keep holds each key once, by its last touch |
| Recency.TouchOfLast | src/capability-cache.js:17-22 | evicting after every touch loses nothing that the last n of the whole order would hold |
| ActivityList.Activity.AppendActivity | src/desktop-activity-snapshot.js:79-90 | search, removal, append and eviction are the specified list; the record is as given, or one later than the first of its id if that was not earlier |
| ActivityList.ActivityIsRecent | src/desktop-activity-snapshot.js:79-90 | after any accepted history, from any restored list of distinct ids, the list holds the last 500 ids by last occurrence, each once |
| ActivityList.KeptAsLastAdded | src/desktop-activity-snapshot.js:79-90 | the record kept for an id is the one added last under it, at its time or later |
| ActivityList.ReaddedIsLater | src/desktop-activity-snapshot.js:82-86 | a record added again is later than the one it replaces, and otherwise as given |
| CapabilityCache.CacheIsRecent | src/capability-cache.js:8-26 | the cache holds the last 256 keys by latest touch, and each hit returns what was recorded last |
| CapabilityCache.Cache.Record | src/capability-cache.js:17-22 | recording moves the key to the end and evicts the first when there is one too many |
| ChildRetention.LoadChildSnapshots | src/desktop-child-snapshot.js:45-96 | the loop keeps as many as the limit allows in ascending order, by creation, update and id, none of the displaced coming after a kept one, and every accepted one as often as it was read; displaced files are removed in turn until one fails |
| ChildRetention.RetainedIsUnique | src/desktop-child-snapshot.js:98-102 | where no two snapshots stand level only one sequence is so retained |

## Left out

Assumptions that the theorems state or the models build in:

- The session catalog never holds the same (session id, creation time) pair twice, a context's scope does not change, and a
  close awaits its prepare before it removes the context. Workspace ids are sets. Sequence numbers do not run out.
- Reporting a persist of the plan as failed means that its record did not land; the marker of a conversation clear is
  appended and applied while no plan operation is in progress. Task ids are represented by their numbers.
- Tool calls are reserved only after some turn of their mission was acknowledged. Lineage ids are not empty.
- A receipt cut short reads as nothing, or as the same receipt where only its line feed is missing; no commit is the
  beginning of another. `Serialisation` shows that both can be. SHA-256 is injective.
- A conversation is cleared while no intent is being persisted: a submission taken while the marker of the clear is being
  written is not modelled.
- The manifest transaction is one atomic swap: a saved receipt follows a publication, an unpublished one is left only where
  the old bytes stand and differ, any other outcome may have published or not. No one else swaps the manifest while an
  activation is pending; the admission barrier keeps them out.
- The winner map is keyed by paths; for keys without dots that is being keyed by their text, and `ConfigPaths` says exactly
  which paths share a text otherwise.
- Comparing session ids by locale is a total preorder; level ids may be kept in either order.
- MissionBudget.RestartNeverRefills: the rebuilt usage covers the live usage only once the last record in flight has landed; a
  turn whose record never landed was never authorised, and what was acknowledged is covered at every moment.
- ConfigProvenance.ResolveConfiguration: the bounds that `leafPaths` puts on a source's depth and size are not modelled.

Not modelled:

- HTTP routes, the command line, help texts, metadata tables, prompt texts and simple range checks: easy members only.
- Access control lists, process probes, path identity, SQLite and HMAC internals, leases and locks: they appear only as the
  atomicity of a step or as a parameter (a live child, a discovery pointer, a verified package).
- Verifying the staged package: a candidate's registration is a partial function of the candidate.
- Timers, abort signals and deadlines: a process may stop at any durable step instead.
- Reasoning continuity, context budgets and the sizes of messages in src/context.js.
- Cycles and sizes of JavaScript object graphs: values are finite trees. Lengths count characters, not UTF-16 units, and keys
  are ordered by character, not by UTF-16 unit; lone surrogates do not occur.
- Provenance of the resolved configuration (`effectiveProvenance`, `leafPaths`): it reads the winner map modelled here, after
  defaults that other modules add.
- The two inspections of an unchanged store that retirement makes before a write are one step here.
- Sanitising of activity records and validation of child snapshots: both are given as their outcome.
