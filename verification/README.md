# Pidex: the Host's authority, its replicas, its transports and its durability, in Dafny

Pidex runs agent Sessions on a Host and shows them on Clients. This project models the parts of it that
must not lose or duplicate anything, and proves what they promise over every input, every run and every
crash they name.

- **The Authority store** (`Authority*.dfy`). The Host's database is a transactional state machine over
  Sessions, Runs, timeline entries, interactions, command receipts, a sequenced synchronization log and
  blob references. `AuthorityTables` has the rows and the reads SQL makes of them;
  `AuthorityOperations` says what each operation does to the database and the artifact directories;
  `AuthorityStore` is the object whose methods run the statements in order, with loops where the program
  has them, proved against those operations; `AuthorityInvariants` and the `*Steps` files show that every
  operation keeps every invariant and is a step of a common relation; `AuthorityOutcomes` and
  `AuthorityForkOutcomes` say of the tables themselves what each operation leaves; `AuthorityHistory` and
  `AuthorityGuarantees` lift this to all histories: reopening, the Run lifecycle, faithful read-state
  versions, commands that take effect once.
- **What rests on the store.** `LogReplay` (the log agrees with the state it describes), `Settlement`
  (completion and recovery under crashes and storage faults), `BlobCollection` (garbage collection under
  crashes), `TimelineReplica` and `ReadStateReplica` (the Client's copies under loss, duplication and
  reordering), `Pagination` (older pages of a timeline).
- **Delivery.** `OutboundDelivery` (the Host's bounded, coalescing queue to one Client) and
  `WorkerTransport` (the incremental length-prefixed decoder with its one-time bootstrap).
- **Generations.** `GenerationChain` (selecting the head of the chain of sealed generations) and
  `GenerationFallback` (resolving whatever is on disk, and repairing it by a copy).
- **Publication and codecs.** `Publication` (stage, validate, flush, rename), `Json`, `SyncCursor` and
  `CommandJournal` (canonical printing and the command journal).

## How things are represented

A table whose rows are never deleted is a sequence and a row's identity is its index, which stands for a
fresh UUID; caller-supplied keys are map keys. Transactions are all or nothing. A blob is named by its own
bytes, which takes SHA-256 to be injective. A history is any sequence of the atomic effects of
`AuthorityHistory.Op`; an operation that makes several effects outside a transaction appears as several,
so a history that stops between them is a crash. The clock of a history does not go back, as the store's
log retention needs; what happens when it does is stated separately in `LogReplay`.

Clocks, random identities, storage faults, crash points, validators, the payload codec of the worker
transport, the comparison of keys and the reading of number literals are parameters, and every theorem
holds for all of them that meet its stated conditions.

## Where the code falls short of what it is for

Each of these is a lemma with the exact condition, and most have a concrete witness.

- Recovery takes any fault for missing proof: a fault in reading the evidence, or one that aborts the
  completing transaction, lets the loop interrupt a Run whose completion was durably proved
  (`Settlement.ProofIsSwallowedExactlyByAFault`).
- Retention deletes log rows by commit time, so a clock that stepped back can make the Host accept a cursor
  and omit a change (`LogReplay.CompactionIsFaithfulExactlyWhenExpiredRowsLead`).
- Maintenance forgets an object it has decided to restore or delete before it moves it. A pass that stops
  in between leaves the object in quarantine for good, unless its bytes are published again: no later pass
  restores it, although it is protected or is protected later (`BlobCollection.StrandedExactlyIfLeftBehind`).
  Blobs that timeline entries name are never affected.
- Publication flushes a file's bytes and the directory of its target, and nothing else. Where directories
  cannot be flushed, a crash can undo a publication that has returned, even after a second one has found it
  already published. Where they can, but entries do not reach the disk in order, a first publication can
  vanish with the directory made for it, and a published tree can lose entries, of which no validation knows
  (`Publication.ReturnedPublicationIsDurableExactly`, `Publication.PublicationIsAtomicExactly`).
- Selecting a generation has no cycle check and does not end on a predecessor cycle
  (`GenerationChain.DivergesExactlyOnACycle`); its final count is redundant when links descend.
- A fallback adds one to the greatest activation index without the bound that reading it back applies
  (`GenerationFallback.SecondResolveIsStable`).
- A crash inside an activation or a fallback's copy leaves a directory that ends resolution for good, and
  one just after the copy loses its warning. Nothing flushes the copy, so a crash of the machine can tear it
  long after the resolution has returned, with the same end (`GenerationFallback.AmbiguityEndsResolution`,
  `GenerationFallback.CopyCrashLosesItsWarningExactly`, `GenerationFallback.AFallbackCanBeTornExactly`).
- Canonical printing sorts keys with a locale comparison; if that ties two different keys, equal envelopes
  can print differently and a retried command is refused (`CommandJournal.OrderIsIgnoredExactlyWithoutTies`).
- Journal reconciliation aborts when the Host is uncertain of a command the journal has as terminal, and
  when one call to the Host fails (`CommandJournal.ClientCommandJournal.Reconcile`).

## Model

| member | source | states |
|---|---|---|
| `Authority.AuthorityStore.constructor` | packages/host/src/store.ts:539-552 | a new data directory starts in the genesis state, which satisfies every invariant |
| `Authority.AuthorityStore.CreateProject` | packages/host/src/store.ts:704-773 | a project and its workspace are inserted under fresh ids and published as one change; a known id rolls the whole transaction back; all invariants are kept |
| `Authority.AuthorityStore.CreateSession` | packages/host/src/store.ts:775-829 | the Session, with the workspace it upserts, is created and published, or nothing changes (scope mismatch, workspace of another project, known id) |
| `Authority.AuthorityStore.ForkSession` | packages/host/src/store.ts:831-993 | a fork happens exactly if the point is a finalized response with the checkpoint named, the child has a new one, its scope is known, and every row up to the point is finalized with its Run finished; then the child's timeline is the parent's row by row, with its own checkpoint at the point and copies of exactly the Runs the rows name, shared as they are; else nothing changes |
| `Authority.AuthorityStore.InsertChildRuns` | packages/host/src/store.ts:892-924 | the loop inserts the terminal Runs that copied rows name, in table order, under the child |
| `Authority.AuthorityStore.InsertChildEntries` | packages/host/src/store.ts:926-965 | the loop copies every row, or stops exactly if one is unfinalized or its Run was not copied |
| `Authority.AuthorityStore.RenameSession` | packages/host/src/store.ts:1252-1331 | a rename gives one Session exactly the name asked for under its next metadata revision, publishes and files it, if the Session is known and the revision current; every refusal names its reason and is filed; a known id is answered from its receipt |
| `Authority.AuthorityStore.ChangeSessionAvailability` | packages/host/src/store.ts:995-1091 | archiving and restoring: refusals in order (unknown, stale, already so, not quiescent), else one published change and a receipt; no Session with active work is archived |
| `Authority.AuthorityStore.MarkSessionRead` | packages/host/src/store.ts:1093-1193 | a mark-read within the timeline moves the read position exactly to what was presented if that is beyond it, and the Session is then unread exactly if its milestone is beyond that; a storage fault leaves nothing behind |
| `Authority.AuthorityStore.SetSessionSleeping` | packages/host/src/store.ts:1195-1240 | only a resident, quiescent Session is put to sleep, and the change is published |
| `Authority.AuthorityStore.SubmitRun` | packages/host/src/store.ts:1333-1478 | a prompt is accepted exactly into a known, available, idle Session and a follow-up into an occupied one; the Run is behind every other of its Session, its prompt ends the timeline, its blob is on disk; every refusal names its reason and is filed |
| `Authority.AuthorityStore.AcceptSteering` | packages/host/src/store.ts:1481-1598 | steering is recorded only for the exact executing Run, worker generation and timeline revision, else refused with a receipt |
| `Authority.AuthorityStore.AcceptStop` | packages/host/src/store.ts:1635-1786 | a stop of the exact target leaves it being cancelled, every waiting Run of the Session cancelled, no interaction of it open, one lifecycle row and a receipt, and moves no other Run or interaction; a stale stop changes nothing |
| `Authority.AuthorityStore.SettleRun` | packages/host/src/store.ts:1934-2011 | a settlement that commits gives the Run its final state and its one row and makes its Session unread at the new timeline revision, which is published exactly if the Session was read; a fault or crash before the commit leaves the tables as they were; the text is published either way |
| `Authority.AuthorityStore.CompleteRun` | packages/host/src/store.ts:1788-1807 | completion stages the evidence, settles, then removes the evidence, with a crash or fault possible at each |
| `Authority.AuthorityStore.ReconcileAcceptedRuns` | packages/host/src/store.ts:1813-1861 | the recovery loop over executing and cancelling Runs and the holding of their queues equal the functional recovery, wherever it stops |
| `Authority.AuthorityStore.RecoverExecution` | packages/host/src/store.ts:1818-1853 | one turn of the recovery loop, with a fault or crash possible in reading the evidence, in either settlement and in the removal, and the faults its catch clause swallows |
| `Authority.AuthorityStore.RecoverWorkerLoss` | packages/host/src/store.ts:1871-1915 | worker loss withdraws each active interaction of the Session, holds its queue and drops its residency |
| `Authority.AuthorityStore.DispatchNext` | packages/host/src/store.ts:2400-2437 | an idle Session's queued Run of lowest order starts executing |
| `Authority.AuthorityStore.HoldQueued` | packages/host/src/store.ts:2439-2445 | every queued Run of the Session, and no other, becomes held |
| `Authority.AuthorityStore.ReleaseRun` | packages/host/src/store.ts:2447-2481 | a held Run with nothing executing and nothing earlier waiting executes, and the other held Runs queue again |
| `Authority.AuthorityStore.CancelQueuedRun` | packages/host/src/store.ts:2483-2495 | only a queued or held Run is cancelled |
| `Authority.AuthorityStore.ApplyTimelineEvent` | packages/host/src/store.ts:2278-2330 | a delta is added to the text of the last open assistant row of its Run and a finished call rewrites and closes its first open row, or each adds one; nothing else moves, and the returned change describes exactly that step |
| `Authority.AuthorityStore.AppendAssistantDelta` | packages/host/src/store.ts:2543-2570 | a delta extends the last open assistant row of the Run or opens one |
| `Authority.AuthorityStore.CompleteToolEntry` | packages/host/src/store.ts:2590-2628 | a finished tool call rewrites and finalizes its open row, or adds a finalized one |
| `Authority.AuthorityStore.FinalizeAssistantEntry` | packages/host/src/store.ts:2332-2361 | finalizing closes the open assistant row under one revision and describes it, or changes nothing |
| `Authority.AuthorityStore.CreateInteraction` | packages/host/src/store.ts:2156-2217 | an interaction of a known Run under a correlation not used before opens with its row and makes the Session unread; otherwise nothing changes |
| `Authority.AuthorityStore.ReserveInteraction` | packages/host/src/store.ts:2219-2233 | an open interaction is reserved exactly if the observed revision is current |
| `Authority.AuthorityStore.SettleInteraction` | packages/host/src/store.ts:2235-2261 | an interaction moves only from the state the caller names |
| `Authority.AuthorityStore.RunMaintenance` | packages/host/src/store.ts:2975-3054 | a pass restores what is listed and needed again, deletes what was proved unneeded earlier, quarantines what is live and unneeded, drops exactly the changes older than seven days, and takes no needed blob from the live directory; it stops after any number of moves with its decisions committed |
| `Authority.AuthorityStore.DecideMaintenance` | packages/host/src/store.ts:2987-3037 | what is decided and what stays listed, said by whether a protected reference or a timeline row names a blob |
| `Authority.AuthorityStore.ReviewOrphans` | packages/host/src/store.ts:3005-3017 | a referenced orphan is restored, one proved at an earlier time is deleted, any other kept |
| `Authority.AuthorityStore.RestoreBlobs` | packages/host/src/run-artifacts.ts:137-148 | restoring moves exactly the quarantined blobs of the list back to the live directory, as far as it got |
| `Authority.AuthorityStore.QuarantineBlobs` | packages/host/src/run-artifacts.ts:120-135 | quarantining moves exactly the live blobs of the list away, as far as it got |
| `Authority.AuthorityStore.DeleteQuarantinedBlobs` | packages/host/src/run-artifacts.ts:150-158 | deletion removes blobs from quarantine only |
| `Authority.AuthorityStore.RotateSynchronizationEpoch` | packages/host/src/store.ts:3079-3094 | rotation starts a new epoch one sequence on with an empty log |
| `Authority.AuthorityStore.ResetResidencyOnStartup` | packages/host/src/store.ts:2374-2378 | every Session is put to sleep and nothing else changes |
| `AuthorityTimelineSteps.MilestoneStep` | packages/host/src/store.ts:2695-2706 | recording a milestone after the rows that justify it keeps every invariant and completes a step: the log tells of the read state exactly as it became, under a greater revision, only if the Session was read |
| `AuthorityTables.FirstQueued` | packages/host/src/store.ts:2412-2418 | the queued Run chosen has the lowest order of the Session, and None means there is none |
| `AuthoritySteps.CreateProjectStep` | packages/host/src/store.ts:704-773 | creating a project keeps every invariant and is a step: the log describes the facets, read states change only under a greater revision, one row moves per timeline revision, terminal Runs and finalized rows stay |
| `AuthoritySteps.CreateSessionStep` | packages/host/src/store.ts:775-829 | creating a Session keeps every invariant and is a step: the log describes the facets, read states change only under a greater revision, one row moves per timeline revision, terminal Runs and finalized rows stay |
| `AuthoritySteps.RenameStep` | packages/host/src/store.ts:1252-1331 | renaming keeps every invariant and is a step: the log describes the facets, read states change only under a greater revision, one row moves per timeline revision, terminal Runs and finalized rows stay |
| `AuthoritySteps.ChangeAvailabilityStep` | packages/host/src/store.ts:995-1091 | archiving and restoring keeps every invariant and is a step: the log describes the facets, read states change only under a greater revision, one row moves per timeline revision, terminal Runs and finalized rows stay |
| `AuthoritySteps.MarkReadStep` | packages/host/src/store.ts:1093-1193 | marking read keeps every invariant and is a step: the log describes the facets, read states change only under a greater revision, one row moves per timeline revision, terminal Runs and finalized rows stay |
| `AuthoritySteps.SleepStep` | packages/host/src/store.ts:1195-1240 | sleeping keeps every invariant and is a step: the log describes the facets, read states change only under a greater revision, one row moves per timeline revision, terminal Runs and finalized rows stay |
| `AuthoritySteps.DispatchStep` | packages/host/src/store.ts:2400-2437 | dispatching keeps every invariant and is a step: the log describes the facets, read states change only under a greater revision, one row moves per timeline revision, terminal Runs and finalized rows stay |
| `AuthoritySteps.ReleaseStep` | packages/host/src/store.ts:2447-2481 | releasing a held Run keeps every invariant and is a step: the log describes the facets, read states change only under a greater revision, one row moves per timeline revision, terminal Runs and finalized rows stay |
| `AuthorityRunSteps.SubmitStep` | packages/host/src/store.ts:1333-1478 | submitting keeps every invariant and is a step: the log describes the facets, read states change only under a greater revision, one row moves per timeline revision, terminal Runs and finalized rows stay |
| `AuthorityRunSteps.SteerStep` | packages/host/src/store.ts:1481-1598 | steering keeps every invariant and is a step: the log describes the facets, read states change only under a greater revision, one row moves per timeline revision, terminal Runs and finalized rows stay |
| `AuthorityRunSteps.StopStep` | packages/host/src/store.ts:1635-1786 | stopping keeps every invariant and is a step: the log describes the facets, read states change only under a greater revision, one row moves per timeline revision, terminal Runs and finalized rows stay |
| `AuthorityRunSteps.SettleStep` | packages/host/src/store.ts:1934-2011 | settling, with or without a fault keeps every invariant and is a step: the log describes the facets, read states change only under a greater revision, one row moves per timeline revision, terminal Runs and finalized rows stay |
| `AuthorityTimelineSteps.ApplyEventStep` | packages/host/src/store.ts:2278-2330 | a runtime fact keeps every invariant and is a step: the log describes the facets, read states change only under a greater revision, one row moves per timeline revision, terminal Runs and finalized rows stay |
| `AuthorityTimelineSteps.FinalizeAssistantStep` | packages/host/src/store.ts:2332-2361 | finalizing keeps every invariant and is a step: the log describes the facets, read states change only under a greater revision, one row moves per timeline revision, terminal Runs and finalized rows stay |
| `AuthorityTimelineSteps.OpenInteractionStep` | packages/host/src/store.ts:2156-2217 | opening an interaction keeps every invariant and is a step: the log describes the facets, read states change only under a greater revision, one row moves per timeline revision, terminal Runs and finalized rows stay |
| `AuthorityForkSteps.ForkStep` | packages/host/src/store.ts:831-993 | forking keeps every invariant and is a step: the log describes the facets, read states change only under a greater revision, one row moves per timeline revision, terminal Runs and finalized rows stay |
| `AuthorityRetentionSteps.MaintainStep` | packages/host/src/store.ts:2975-3054 | maintenance stopped after any of its moves keeps every invariant and is a step: the log describes the facets, read states change only under a greater revision, one row moves per timeline revision, terminal Runs and finalized rows stay |
| `AuthorityRetentionSteps.RotateEpochStep` | packages/host/src/store.ts:3079-3094 | epoch rotation keeps every invariant and is a step: the log describes the facets, read states change only under a greater revision, one row moves per timeline revision, terminal Runs and finalized rows stay |
| `AuthorityTables.NextEntryOrderIsCount` | packages/host/src/store.ts:2735-2743 | the next timeline order is one more than the number of rows, so orders stay dense from 1 |
| `AuthorityRetentionSteps.CompactionDropsPrefix` | packages/host/src/store.ts:2986-2996 | with ascending commit times, deleting old changes drops a prefix of the log |
| `AuthorityHistory.ApplyStep` | packages/host/src/store.ts:704-3106 | every operation, whatever its arguments, keeps all invariants and is a step |
| `AuthorityHistory.HistoryKeeps` | packages/host/src/store.ts:704-3106 | every state of every history satisfies all invariants, and each pair of states is a step |
| `AuthorityOutcomes.SettlementMeets` | packages/host/src/store.ts:1944-1998 | what a settlement leaves, row by row: the Run, its row, the unread milestone, the log, and nothing else |
| `AuthorityOutcomes.StopMeets` | packages/host/src/store.ts:1689-1786 | what a stop leaves: waiting Runs cancelled, the target being cancelled, its interactions withdrawn, one row, and nothing else |
| `AuthorityOutcomes.StoppedSessionWaitsForNothing` | packages/host/src/store.ts:1694-1717 | after an accepted stop no Run of the Session is queued or held and no interaction of the target is open |
| `AuthorityOutcomes.RenameMeets` | packages/host/src/store.ts:1275-1328 | acceptance and refusals of a rename, by their reasons, and the one name that changes |
| `AuthorityOutcomes.AvailabilityMeets` | packages/host/src/store.ts:1020-1088 | archiving needs a quiescent available Session and restoring an archived one; each refusal by its reason; only availability and residency change |
| `AuthorityOutcomes.MarkReadMeets` | packages/host/src/store.ts:1112-1190 | refusals and the move of a read position, and whether the Session is unread afterwards |
| `AuthorityOutcomes.SubmitMeets` | packages/host/src/store.ts:1355-1475 | refusals by their reasons, and the Run, row and blob of an accepted prompt |
| `AuthorityOutcomes.SteerMeets` | packages/host/src/store.ts:1510-1595 | steering needs the exact executing Run, generation and revision, and adds one finalized row |
| `AuthorityOutcomes.AskingMeets` | packages/host/src/store.ts:2166-2214 | when an interaction opens, and that its Session becomes unread |
| `AuthorityOutcomes.InteractionsMoveMeets` | packages/host/src/store.ts:2219-2261 | an interaction moves exactly from the state and revision its caller saw, at its next revision |
| `AuthorityOutcomes.EventMeets` | packages/host/src/store.ts:2543-2628 | which row a runtime fact rewrites and the text it then has, or the row it adds |
| `AuthorityOutcomes.FinalizingMeets` | packages/host/src/store.ts:2332-2361 | finalizing closes the last open assistant row and keeps its text |
| `AuthorityOutcomes.ReleasingMeets` | packages/host/src/store.ts:2447-2481 | a released Run executes and every other held Run of its Session is queued again, exactly if none executes and none waits before it |
| `AuthorityOutcomes.WaitingMeets` | packages/host/src/store.ts:2439-2495 | holding a queue and cancelling one waiting Run move no other Run |
| `AuthorityOutcomes.DispatchMeets` | packages/host/src/store.ts:2400-2437 | the queued Run of lowest order executes exactly if none of its Session does |
| `AuthorityOutcomes.ProjectMeets` | packages/host/src/store.ts:704-773 | a project and its workspace are new and published, unless either is known |
| `AuthorityOutcomes.CreatingMeets` | packages/host/src/store.ts:775-829 | when a Session may be created, and that it is untitled, empty, asleep, available and read |
| `AuthorityOutcomes.SleepingMeets` | packages/host/src/store.ts:1195-1240 | only a resident quiescent Session sleeps, and nothing else of it changes |
| `AuthorityOutcomes.WorkerLossMeets` | packages/host/src/store.ts:1871-1915 | which interactions, Runs and residency a lost worker changes |
| `AuthorityOutcomes.RotationMeets` | packages/host/src/store.ts:3079-3094 | a rotation changes the epoch, the sequence and the log, and nothing else |
| `AuthorityOutcomes.SummaryTells` | packages/host/src/store.ts:3159-3196 | a published summary tells the Session's row and whether it is unread |
| `AuthorityOutcomes.MaintenanceMeets` | packages/host/src/store.ts:2975-3067 | the decisions, the list, the log and the files after a pass, said by which blobs are needed |
| `AuthorityForkOutcomes.ForkMeets` | packages/host/src/store.ts:831-993 | exactly when a fork happens, and the child row by row and Run by Run |
| `AuthorityGuarantees.EveryReachableDatabaseReopens` | packages/host/src/store.ts:2708-2722 | no reachable database has a row that the opening integrity check selects, so each can be reopened |
| `AuthorityGuarantees.RunsStayInLine` | packages/host/src/store.ts:1376-1410 | in every reachable state a Session has at most one executing Run, queued Runs are ordered after it, and an archived Session has only terminal Runs |
| `AuthorityGuarantees.RunsSettleOnce` | packages/host/src/store.ts:1934-1996 | in a created or forked Session, a Run that no fork copied has exactly one response or outcome row once completed, failed or interrupted, at most one if cancelled, and none until it has finished |
| `AuthorityGuarantees.RunsOfCreatedSessionsSettleOnce` | packages/host/src/store.ts:1934-1996 | in any reachable state, also of a database with copied Runs, the same holds of every Run that is unfinished or whose Session was created |
| `AuthorityGuarantees.OnlyForksAddFinished` | packages/host/src/store.ts:892-924 | no operation but a fork adds a Run that has already finished |
| `AuthorityGuarantees.TerminalRunsStay` | packages/host/src/store.ts:1971-1976 | a terminal Run never changes state again, and Runs never leave their Session |
| `AuthorityGuarantees.StoppedRunsNeverExecute` | packages/host/src/store.ts:1697-1702 | over histories, a Run that waited when its Session was stopped is cancelled ever after |
| `AuthorityGuarantees.SettledSessionStaysUnread` | packages/host/src/store.ts:1989-1990 | over histories, a settled Session stays unread until an accepted mark-read that presents at least the settlement's revision |
| `AuthorityGuarantees.UnreadUntilMarked` | packages/host/src/store.ts:1093-1193 | over histories, an unread Session stays unread under a milestone that does not go back until an accepted mark-read presents at least that milestone |
| `AuthorityGuarantees.OnlyMarkingReads` | packages/host/src/store.ts:1093-1193 | no operation but an accepted mark-read moves a read position, and none takes a milestone back |
| `AuthorityGuarantees.TimelineRevisionIsSum` | packages/host/src/store.ts:2676-2693 | in a created Session timelineRevision is 1 plus the sum of the entry revisions |
| `AuthorityGuarantees.ReadStateRevisionIsFaithful` | packages/host/src/store.ts:3181-3196 | along a history the read-state revision never decreases, and equal revisions mean equal read states |
| `AuthorityGuarantees.FreshCommandIsFiled` | packages/host/src/store.ts:2529-2541 | an accepted outcome, or a refusal that is filed, is filed under its envelope and was not filed before |
| `AuthorityGuarantees.ReceivedCommandRepeats` | packages/host/src/store.ts:2504-2520 | a command with a receipt is answered from it, or refused if its envelope differs, and changes nothing |
| `AuthorityGuarantees.ReceiptsStay` | packages/host/src/store.ts:2984-2988 | no operation, maintenance included, drops or changes a receipt |
| `AuthorityGuarantees.CommandsTakeEffectOnce` | packages/host/src/store.ts:1340-1353 | over any history, once a command id has a filed outcome every later command of that id leaves the world as it is and is answered by that outcome, or refused if its envelope differs |
| `LogReplay.ReplayIsExact` | packages/host/src/store.ts:2887-2937 | for any two states of a history, if the cursor of the first is accepted at the second the Host answers exactly the changes recorded in between, and folding them over the first state's facets gives the second's |
| `LogReplay.LostRowRefusesCursor` | packages/host/src/store.ts:2902-2915 | once a change beyond a cursor has been deleted, the cursor is refused |
| `LogReplay.AcceptedExactlyIfHistoryReaches` | packages/host/src/store.ts:2887-2919 | a cursor of the Host is accepted exactly if it is of the current epoch, not beyond the log, and at its end or no further back than right before a retained change; another epoch is answered as such, and any other refusal is for lack of history |
| `LogReplay.CursorsStayAccepted` | packages/host/src/store.ts:2887-2919 | over histories, the cursor of a state is accepted later exactly if the epoch is the same and nothing happened since or a retained change is at most the next |
| `LogReplay.FirstChangeIsAnswered` | packages/host/src/store.ts:2902-2937 | the cursor of a new Host gets the first change of all |
| `LogReplay.CompactionIsFaithfulExactlyWhenExpiredRowsLead` | packages/host/src/store.ts:2989-2996 | deleting by commit time answers every accepted cursor as before exactly when the expired rows come first |
| `LogReplay.ClockStepBackLosesAChange` | packages/host/src/store.ts:2989-2996 | two Sessions created at 100 and then, by a clock that stepped back, at 50: after maintenance the cursor between them is accepted and answered with nothing |
| `Settlement.RecoveriesSettleWhatIsOwed` | packages/host/src/store.ts:1813-1861 | after any number of recoveries, each stopped anywhere and none swallowing a proof, every unfinished Run is untouched or settled as owed (completed with the staged text and checkpoint if valid evidence was durable, else interrupted), and all are settled once one recovery finishes |
| `Settlement.CompletionSurvivesCrashes` | packages/host/src/store.ts:1788-1807 | a completion stopped at any point ends, after recoveries of which one finishes and none swallows the proof, completed with exactly its text and checkpoint if the evidence was durable, and interrupted if not |
| `Settlement.FinishedRecoveryIsIdempotent` | packages/host/src/store.ts:1813-1861 | a recovery that finished, run again, changes nothing |
| `Settlement.FinishedRecoveryHoldsQueues` | packages/host/src/store.ts:1855-1860 | a recovery that finishes holds every queued Run of a Session in which a Run was executing or being cancelled, and moves no other Run |
| `Settlement.ReturnedCompletionIsClean` | packages/host/src/store.ts:1788-1807 | a completion that returns has settled its Run as completed with its text and checkpoint and removed the evidence |
| `Settlement.RecoveredCompletionIsClean` | packages/host/src/store.ts:1831-1843 | so has a turn of recovery that completes a Run and goes on |
| `Settlement.ProofIsSwallowedExactlyByAFault` | packages/host/src/store.ts:1831-1852 | a Run with durable proof is interrupted exactly when reading the proof fails or the completing transaction faults, and the interrupting one commits |
| `Settlement.ATransientFaultInterruptsAProvedRun` | packages/host/src/store.ts:1831-1852 | every such fault interrupts a proved Run in a world reached by creating a Session, submitting a prompt and staging its evidence |
| `Settlement.ReconcileIsHistory` | packages/host/src/store.ts:1813-1861 | every attempt at recovery is a sequence of history operations, so what histories keep holds through recovery |
| `Settlement.ExecutingRunsAreUnfinished` | packages/host/src/store.ts:2380-2388 | recovery visits exactly the executing and cancelling Runs, each once |
| `BlobCollection.ReferencedBlobsAreLive` | packages/host/src/store.ts:3056-3067 | in every reachable state, crashed between any two moves or not, every blob a timeline entry names is in the live directory |
| `BlobCollection.DeletionTakesTwoProofs` | packages/host/src/store.ts:2998-3053 | bytes leave the disk only in a pass at which no protected reference and no timeline row names them, after an earlier pass at a strictly earlier time of which the same is true |
| `BlobCollection.ProtectedBlobsStayLive` | packages/host/src/store.ts:3056-3067 | over histories, a live blob under a protected reference is live ever after |
| `BlobCollection.NeededBlobsStay` | packages/host/src/store.ts:3056-3067 | no operation takes a blob out of the live directory that a protected reference or a timeline row names |
| `BlobCollection.WholePassRestores` | packages/host/src/store.ts:3005-3046 | a whole pass brings every needed blob that is quarantined and listed back to the live directory |
| `BlobCollection.TwoPassesCollect` | packages/host/src/store.ts:3005-3054 | two complete passes at increasing times remove a blob that stays unreferenced |
| `BlobCollection.StrandedExactlyIfLeftBehind` | packages/host/src/store.ts:3005-3053 | in every history, an object is in quarantine, not live and on no list exactly if some pass decided to restore or delete it and stopped before it did, and its bytes have not been published since |
| `BlobCollection.StrandedExactlyByAStoppedPass` | packages/host/src/store.ts:3005-3053 | one operation strands an object exactly if it is a pass that leaves its decided restore or delete undone while the object is only in quarantine |
| `BlobCollection.FinishedPassesStrandNothing` | packages/host/src/store.ts:3005-3053 | as long as every pass carries out the restores and deletes it decided, every quarantined object is live or listed |
| `BlobCollection.StrandedUntilPublished` | packages/host/src/run-artifacts.ts:76-90 | a stranded object stays so exactly until its bytes are published again |
| `BlobCollection.StrandedObjectsStay` | packages/host/src/store.ts:3005-3034 | no number of passes brings a stranded object back |
| `BlobCollection.ALostRestoreStrandsAProtectedObject` | packages/host/src/store.ts:3039-3046 | a history from genesis: published, quarantined, retained, and lost to passes by one that stops before its restore |
| `BlobCollection.ALostDeleteStrandsAnObjectRetainedLater` | packages/host/src/store.ts:3047-3051 | a history from genesis: published, quarantined, a pass that stops before its delete, then retained and lost to passes |
| `TimelineReplica.SessionView.OnTimelineChange` | apps/client/src/client-store.ts:675-706 | the watch handler takes a change only at the held revision, pushes or replaces its row, sorts, and advances |
| `TimelineReplica.ReplicaTracksHost` | apps/client/src/client-store.ts:675-706 | from a projection and under any loss, duplication or reordering of the Host's changes, the copy equals the Host's timeline at the revision it holds, holds every row changed since the projection, stays sorted, and renders that revision |
| `TimelineReplica.LosslessDeliveryCatchesUp` | apps/client/src/client-store.ts:675-706 | when nothing is lost or reordered the copy ends at the Host's last revision |
| `TimelineReplica.SortedPush` | apps/client/src/client-store.ts:985-987 | sorting after a push gives the same facts in ascending order |
| `TimelineReplica.MovingStepHasChange` | packages/host/src/host.ts:2065-2083 | every step that moves a timeline has one change that describes it |
| `ReadStateReplica.DiscoveryView.SessionReadStateChanged` | apps/client/src/client-store.ts:382-385 | a read-state fact is kept unless superseded or older than an in-flight mark, for known Sessions only |
| `ReadStateReplica.SuppressedExactly` | apps/client/src/client-store.ts:341-347 | a fact is suppressed exactly if it calls unread what a mark in flight has presented |
| `ReadStateReplica.DiscoveryView.EndMark` | apps/client/src/client-store.ts:905-905 | ending a mark removes it only if no later mark replaced it |
| `ReadStateReplica.CopyIsNewest` | apps/client/src/client-store.ts:341-347 | after any arrivals the copy is one of the facts that reached it and none of them has a greater revision |
| `ReadStateReplica.CopiesAgree` | apps/client/src/client-store.ts:341-347 | two copies reached by the same Host facts, in any order with any repetition, are equal |
| `ReadStateReplica.AcceptedMarkSupersedes` | apps/client/src/client-store.ts:893-907 | once the Host accepted a mark its read state is never suppressed by that mark and supersedes every fact from before |
| `Pagination.PageCovers` | packages/host/src/store.ts:2036-2059 | a page is exactly the finalized rows from its lower end to its cursor, and it has no older cursor exactly when nothing finalized lies below |
| `Pagination.PageHasItsSize` | packages/host/src/store.ts:2040-2059 | a page has as many of the rows below its cursor as asked for, at least one and at most two hundred, from their end; a cursor of another epoch or Session gets none |
| `Pagination.WindowIsTheEnd` | packages/host/src/store.ts:2025-2034 | a window is the last hundred rows of a timeline |
| `Pagination.PagesAreComplete` | packages/host/src/store.ts:2025-2142 | following olderCursor from a window with any limits while rows are appended yields exactly the finalized rows below it; the pages, oldest first, followed by the window ascend strictly in order, so no row comes twice; it ends within one request more than there are rows, and then every finalized row has been given, provided no open row below the cursor is finalized meanwhile |
| `Pagination.WalkReturnsWhatWasFinalized` | packages/host/src/store.ts:2084-2142 | without that proviso, a row below the window is returned exactly if it was finalized when the one request covering its order was served |
| `Pagination.LastWindowIsWhole` | packages/host/src/store.ts:2130-2142 | a window without a cursor leaves out no finalized row |
| `OutboundDelivery.ClientDelivery.SendServerMessage` | packages/host/src/host.ts:442-485 | a send keeps the bound and the log, which it extends exactly if the socket is and stays open; it replaces the queued message of the same key or joins the end, or closes the socket because it would pass the bound |
| `OutboundDelivery.ClientDelivery.DrainDelivery` | packages/host/src/host.ts:487-508 | draining restores that nothing waits behind an idle open socket, within the bound and faithful to the log of sends, and lets no message overtake another |
| `OutboundDelivery.ClientDelivery.OnSendCompleted` | packages/host/src/host.ts:499-507 | a completion frees exactly the bytes in flight and keeps the bound, the order and the log of sends; an error closes the socket with its queue as it was |
| `OutboundDelivery.QueueRefinesLog` | packages/host/src/host.ts:442-508 | for any interleaving, outboundBytes equals in-flight plus queued bytes within the bound, non-replaceable messages are delivered or queued once in send order, the last message of each key is the last sent, and nothing else is delivered |
| `OutboundDelivery.TakenMessageReplacesItsRename` | packages/host/src/host.ts:456-485 | a taken message takes the place of the one waiting rename of the same Session if it is a rename itself, and otherwise joins the end |
| `OutboundDelivery.OnlyRenamesAreReplaced` | packages/host/src/host.ts:2277-2288 | a message may be replaced exactly if it is a change set of one rename |
| `OutboundDelivery.IdleMeansDelivered` | packages/host/src/host.ts:487-508 | an idle open socket has been given everything sent, the latest value for each key |
| `OutboundDelivery.CompletionsDrain` | packages/host/src/host.ts:499-507 | as many completions as there are messages empty an open queue |
| `OutboundDelivery.OverflowExactlyBeyondTheBound` | packages/host/src/host.ts:464-474 | the socket is closed for overflow exactly by a send that would pass the bound |
| `WorkerTransport.SessionWorkerTransport.OnData` | packages/worker-protocol/src/index.ts:302-334 | whatever arrives, what has been delivered is orderly and is what all bytes received decode to in one piece; deliveries are only added |
| `WorkerTransport.SessionWorkerTransport.DecodeBuffer` | packages/worker-protocol/src/index.ts:306-333 | the decoding loop equals the recursive decoder on the buffered bytes |
| `WorkerTransport.SessionWorkerTransport.Accept` | packages/worker-protocol/src/index.ts:404-421 | a frame is accepted exactly if it is of this generation and its sequence is the number of frames delivered before it |
| `WorkerTransport.SessionWorkerTransport.Admit` | packages/worker-protocol/src/index.ts:313-333 | one payload is decoded, checked, admitted and delivered at the end of an orderly sequence, or names its failure and delivers nothing, unless it is the callback that throws on the delivered frame |
| `WorkerTransport.HeaderRoundTrip` | packages/worker-protocol/src/index.ts:283-288 | the four-byte big-endian length reads back |
| `WorkerTransport.ChunkingIsInvisible` | packages/worker-protocol/src/index.ts:302-334 | delivered frames and failure depend only on the concatenated bytes, for every way of cutting them |
| `WorkerTransport.CuttingsAgree` | packages/worker-protocol/src/index.ts:302-334 | two cuttings of one stream are observed alike |
| `WorkerTransport.OnlyOrderlyFramesAreDelivered` | packages/worker-protocol/src/index.ts:313-329 | whatever bytes arrive, the first delivered frame is the authenticated bootstrap, no later one is, and sequences are 0, 1, 2, ... |
| `WorkerTransport.FailureIsFinal` | packages/worker-protocol/src/index.ts:359-365 | nothing is delivered after a failure and what was delivered stays |
| `WorkerTransport.RefusalsNameWhatIsWrong` | packages/worker-protocol/src/index.ts:313-333 | a payload is delivered exactly if nothing is wrong with it, and refused with the code of what is wrong |
| `WorkerTransport.LengthsAreBounded` | packages/worker-protocol/src/index.ts:306-311 | a length of zero or beyond twelve mebibytes ends the generation, and a frame that has not arrived whole waits |
| `WorkerTransport.StreamRoundTrip` | packages/worker-protocol/src/index.ts:283-334 | encoded valid frames, cut any way, are delivered exactly, in order, without failure |
| `WorkerTransport.PartialStreamDeliversPrefix` | packages/worker-protocol/src/index.ts:302-334 | while frames arrive, what was delivered is a beginning of them |
| `GenerationChain.CompareReleases` | packages/host/src/authority-generation.ts:646-653 | the sign is the lexicographic order of major, minor and patch |
| `GenerationChain.ReleaseWithin` | packages/host/src/authority-generation.ts:630-640 | a release is within bounds exactly if neither bound is on its wrong side |
| `GenerationChain.InspectCandidates` | packages/host/src/authority-generation.ts:462-494 | the candidate loop reports the first fault in order, else the exact child counts |
| `GenerationChain.WalkPredecessors` | packages/host/src/authority-generation.ts:510-525 | the walk selects its start exactly if it visits as many candidates as there are |
| `GenerationChain.SelectGeneration` | packages/host/src/authority-generation.ts:443-528 | the whole selection, error kinds included, equals its specification |
| `GenerationChain.SelectionIsExactlyAChain` | packages/host/src/authority-generation.ts:443-528 | a generation is selected exactly when the eligible candidates form one chain from the greatest index to the only root, and it is the head of that chain |
| `GenerationChain.DescendingLineageNeedsNoCount` | packages/host/src/authority-generation.ts:496-525 | if predecessor links go to smaller indexes, the earlier checks alone make one chain: the walk ends, visits each once, and the final count never refuses |
| `GenerationChain.DivergesExactlyOnACycle` | packages/host/src/authority-generation.ts:510-520 | selection never ends exactly when the checks pass and the newest candidate descends from itself |
| `GenerationChain.DivergingWalkNeverEnds` | packages/host/src/authority-generation.ts:510-520 | such a walk goes on for ever |
| `GenerationChain.ACyclePassesTheChecks` | packages/host/src/authority-generation.ts:460-508 | three generations pass every check and still make the walk cycle |
| `GenerationChain.ForkedExactly` | packages/host/src/authority-generation.ts:490-498 | the child-count check is exactly that no two candidates share a predecessor |
| `GenerationChain.RefusalsNameTheirCause` | packages/host/src/authority-generation.ts:453-527 | every refusal is for what is wrong with the first faulty candidate, for a shared predecessor, or for a lineage that is not one chain |
| `GenerationFallback.AuthorityGenerationStore.Enumerate` | packages/host/src/authority-generations.ts:316-344 | enumeration is ambiguous exactly if a directory is unreadable, misnamed or shares an index, else it returns all envelopes |
| `GenerationFallback.AuthorityGenerationStore.Newest` | packages/host/src/authority-generations.ts:418-427 | the result has the greatest activation index |
| `GenerationFallback.AuthorityGenerationStore.CopyForFallback` | packages/host/src/authority-generations.ts:373-394 | the copy is a new directory with a new continuity and the source as predecessor |
| `GenerationFallback.AuthorityGenerationStore.Resolve` | packages/host/src/authority-generations.ts:128-179 | resolution selects the newest complete generation, or copies it beside an incomplete newest one that descends from it, or refuses without a change |
| `GenerationFallback.AuthorityGenerationStore.RecordSelection` | packages/host/src/authority-generations.ts:166-177 | each generation keeps the number of the scan that first proved it, and the selector names the selected one |
| `GenerationFallback.AuthorityGenerationStore.Activate` | packages/host/src/authority-generations.ts:74-125 | activation resolves, publishes one generation above its source, and resolves again |
| `GenerationFallback.ResolvedIsWhole` | packages/host/src/authority-generations.ts:128-179 | whenever resolution returns, the selected generation is on disk with all its objects and the greatest index; a fallback is new, with a continuity no generation had |
| `GenerationFallback.ResolutionMeets` | packages/host/src/authority-generations.ts:128-179 | when resolution refuses and why, which generation it selects, what the copy of a fallback holds, and what it records |
| `GenerationFallback.SecondResolveIsStable` | packages/host/src/authority-generations.ts:128-179 | an immediate second resolution selects the same generation, warns of nothing and adds nothing, exactly if the selected index is a safe integer; otherwise it refuses the disk |
| `GenerationFallback.AFallbackCanEndResolution` | packages/host/src/authority-generations.ts:373-394 | a fallback from the greatest safe index makes every later resolution refuse |
| `GenerationFallback.ActivationNeedsItsObjects` | packages/host/src/authority-generations.ts:74-125 | activation succeeds exactly if every object of the new generation exists |
| `GenerationFallback.ActivationMeets` | packages/host/src/authority-generations.ts:74-125 | the generation an activation publishes: its index, predecessor, objects and continuity |
| `GenerationFallback.ResolutionOfPublished` | packages/host/src/authority-generations.ts:119-125 | otherwise the source is copied one index further on |
| `GenerationFallback.RunsKeepOrder` | packages/host/src/authority-generations.ts:74-179 | over runs of resolutions, activations, crashes of the process or the machine at any time, restarts and changes of the objects, indexes stay unique, predecessor links descend, and each new generation is younger than all before it |
| `GenerationFallback.FallbackContinuityIsNew` | packages/host/src/authority-generations.ts:373-394 | a repair's continuity and index differ from those of every generation the run ever had |
| `GenerationFallback.CopyCrashIsReadableExactly` | packages/host/src/authority-generations.ts:373-394 | a crash while copying leaves a disk that can be resolved exactly if the copy was whole, its index is a safe integer and, if the machine crashed, nothing unflushed was torn |
| `GenerationFallback.TearingIsReadableExactly` | packages/host/src/authority-generations.ts:316-344 | a crash of the machine at any time leaves a readable disk exactly if it was readable and no unflushed directory was torn |
| `GenerationFallback.AFallbackCanBeTornExactly` | packages/host/src/authority-generations.ts:373-394 | after a resolution that returned, with all flushed before it, a later crash of the machine can end resolution exactly if it made a fallback |
| `GenerationFallback.ActivationCrashIsReadableExactly` | packages/host/src/authority-generations.ts:96-117 | a death of the process while activating leaves a disk that can be resolved exactly if the new generation already had its own name |
| `GenerationFallback.AmbiguityEndsResolution` | packages/host/src/authority-generations.ts:128-133 | from then on, in every later state of a run, the same directories are there, none is mended, and every resolution refuses them |
| `GenerationFallback.CopyCrashLosesItsWarningExactly` | packages/host/src/authority-generations.ts:156-163 | after a crash behind a whole copy the next resolution selects it without a warning, and the warning is on record exactly if it was already written |
| `Publication.Publisher.PrepareStagedCandidate` | packages/durability/src/index.ts:146-169 | preparation succeeds exactly for an acceptable candidate with no stop, and leaves its files flushed and its directories as they were made |
| `Publication.Publisher.PublishStagedCandidate` | packages/durability/src/index.ts:171-184 | unless the rename is refused, the candidate becomes the target and the former target one of the entries a crash could bring back; those are dropped where the platform flushes directories, and the directory itself is sure only where entries are ordered too |
| `Publication.Publisher.Publish` | packages/durability/src/index.ts:104-144 | the whole protocol, making the target's directory included, with a crash or error at any step on any platform, and exactly when it publishes (a rename over a directory is refused), finds itself published, or collides |
| `Publication.OutcomesExactly` | packages/durability/src/index.ts:104-144 | exactly when a publication publishes, finds itself published, or collides, by what the candidate and the target are |
| `Publication.EquivalentExactlyWhenEqual` | packages/durability/src/index.ts:289-324 | two trees are equivalent exactly when they are equal, links on the target's side followed |
| `Publication.CrashFindsFormerOrCandidate` | packages/durability/src/index.ts:104-196 | whatever stops a publication, a crash finds at the target what it could have found before, or what it leaves of the candidate that passed validation |
| `Publication.PublicationIsAtomic` | packages/durability/src/index.ts:104-196 | it finds the former or the whole candidate, for every file, and for a tree if entries are ordered or its own are sure |
| `Publication.PublicationIsAtomicExactly` | packages/durability/src/index.ts:248-257 | where no tree was before, a candidate that has its name is found whole by every crash exactly under that condition: only regular files are flushed, never a directory |
| `Publication.APublishedTreeCanLoseEntries` | packages/durability/src/index.ts:248-257 | a returned publication of a tree of which a crash finds a part that fails validation |
| `Publication.ImmutableTargetsStay` | packages/durability/src/index.ts:122-136 | in immutable mode an existing target is never touched |
| `Publication.ReturnedPublicationIsInPlace` | packages/durability/src/index.ts:122-143 | once publication has returned, the target has the candidate's content, links of an older equal target followed, and passed validation |
| `Publication.ReturnedPublicationIsDurableExactly` | packages/durability/src/index.ts:186-196 | once publication has returned, every crash finds what is at the target exactly if nothing of that can be lost, its directory was sure or is flushed where entries are ordered, and directories can be flushed or every entry a crash could bring back before was for the same |
| `Publication.NewPublicationIsDurableExactly` | packages/durability/src/index.ts:110-196 | a publication in place of anything else, or nothing, is durable exactly if directories can be flushed and either entries are ordered, or the target's directory was sure before and the candidate has no entry that is not |
| `Publication.AnUnflushedPublicationCanVanish` | packages/durability/src/index.ts:346-349 | where directories cannot be flushed, ordered or not, a crash can undo a publication that returned, also after a second one found it already published |
| `Publication.AFirstPublicationCanVanish` | packages/durability/src/index.ts:110-111 | where entries are not ordered, a first publication into a directory made for it can vanish with that directory after it returned |
| `Publication.SureExactlyIfAllKeep` | packages/durability/src/index.ts:337-358 | a crash surely finds a tree exactly if the directory is sure and every entry a crash may bring back is for that tree, with every byte flushed and every entry in it sure |
| `Publication.CollisionKeepsEvidence` | packages/durability/src/index.ts:130-136 | a collision keeps the flushed candidate beside a target that differs or is invalid |
| `Publication.RepublishingIsIdempotent` | packages/durability/src/index.ts:122-129 | publishing the same candidate again changes nothing at the target |
| `Json.PrintRoundTrip` | packages/protocol/src/cursor.ts:20-23 | parsing a printed JSON value gives the value back (sections 2 to 7 of RFC 8259) |
| `Json.PrintIsInjective` | apps/client/src/client-command-journal.ts:62-71 | values that print alike are the same value |
| `SyncCursor.Base64RoundTrip` | packages/protocol/src/cursor.ts:22-34 | unpadded base64url decodes to the bytes encoded (section 5 of RFC 4648) |
| `SyncCursor.GroupIsOneNumber` | packages/protocol/src/cursor.ts:22-23 | three bytes and their four sextets are one number |
| `SyncCursor.Vectors` | packages/protocol/src/cursor.ts:22-23 | the test vectors of section 10 of RFC 4648 and the two letters of the URL alphabet |
| `SyncCursor.EncodesExactlyLatin1` | packages/protocol/src/cursor.ts:20-23 | a cursor can be made exactly of ids whose units are Latin-1 or unpaired surrogates |
| `SyncCursor.CursorRoundTrip` | packages/protocol/src/cursor.ts:20-50 | decoding an encoded cursor gives host, epoch and sequence for 1 <= n < 2^53, and nothing for 0 |
| `SyncCursor.CursorsAreDistinct` | packages/protocol/src/cursor.ts:20-23 | distinct positions have distinct cursors |
| `SyncCursor.PrecedenceIsStrictPartialOrder` | packages/protocol/src/cursor.ts:57-62 | cursorPrecedes is irreflexive, transitive and asymmetric on all strings |
| `SyncCursor.PrecedenceIsSequenceOrder` | packages/protocol/src/cursor.ts:57-62 | between issued cursors it is the order of sequences, within one host and epoch only |
| `CommandJournal.CanonicalIsInjective` | apps/client/src/client-command-journal.ts:62-71 | whatever the key order, values that print alike are equal up to member order |
| `CommandJournal.CanonicalIsExact` | apps/client/src/client-command-journal.ts:62-71 | with a key order that ties only equal keys, two values print alike exactly when equal up to member order |
| `CommandJournal.OrderIsIgnoredExactlyWithoutTies` | apps/client/src/client-command-journal.ts:62-71 | printing ignores member order exactly when the key comparison has no ties between different keys |
| `CommandJournal.TiedKeysKeepOrder` | apps/client/src/client-command-journal.ts:62-71 | two different keys that compare equal are printed in the order given |
| `CommandJournal.ReserveRefusesExactlyOtherEnvelopes` | apps/client/src/client-command-journal.ts:11-29 | a reused id is refused exactly when the envelope differs by more than member order |
| `CommandJournal.ClientCommandJournal.Reserve` | apps/client/src/client-command-journal.ts:11-29 | reserving creates an entry, answers the existing one, or refuses another envelope or continuity |
| `CommandJournal.ClientCommandJournal.Advance` | apps/client/src/client-command-journal.ts:31-42 | an entry's state never moves back |
| `CommandJournal.RanksFollowTheLife` | apps/client/src/client-command-journal.ts:73-75 | the order of a command's states, pair by pair |
| `CommandJournal.ClientCommandJournal.Reconcile` | apps/client/src/client-command-journal.ts:48-59 | reconciliation finishes exactly if the continuity is current, every call to the Host returns and the Host is uncertain of no terminal command, and then each asked entry has its answer; wherever it stops each entry is as it was or has its answer |

## Left out

- SQLite, HTTP and WebSocket plumbing, Git, the Pi SDK, native code, cryptography, React and the detail of the schemas: I/O, foreign code or plain validation.
- The steering table, creation and completion times, interaction payloads and deadlines, derived attention summaries, and the names and paths of projects and workspaces: written and read, but nothing modelled depends on them.
- The text line that describes attached images in a prompt or steering row: the row keeps the prompt and the blob of the images.
- The catalog a newly opened database is given, and opening a database from a file: the constructor starts from the genesis state, and that every reachable state passes the check at opening is a theorem about states.
- A clock that goes back, in histories: the store's methods and histories take commit times that do not decrease; LogReplay says what a step back does to retention.
- Residency, timelineRevision and workspaces in log replay: the code records no change for them.
- The settlement counts of Runs a fork copied, and the revision sum of a forked Session: a fork can copy a prompt of a later finished Run without its outcome, and restarts timelineRevision.
- Recovery loop order: `ReconcileAcceptedRuns` visits Runs in table order where the query names no order.
- Crash of a completion between writing and publishing evidence: the evidence is either durable and whole or absent, which is what Publication proves of an immutable file.
- The store's own files and crashes of the machine: blobs, evidence and moves are taken to last once made; Publication says exactly when a crash may undo a publication.
- Checkpoint publication and its own files.
- `WorkerTransport`: re-entrant closing from inside the frame callback, the heartbeat clock, the outbound frame queue and the generation lifecycle; the token is compared as text, which for lower-case hexadecimal of fixed length is comparing its bytes.
- `GenerationChain`: reading and validating the directories, which only decides the candidates; digit strings too long for an exact number in releases.
- `GenerationFallback`: entries of the directories themselves, which are taken to last once made (Publication says when they do); cleanup, holds and warnings other than the fallback's; an error thrown inside a copy, which leaves the directory a crash there leaves; object names that are not safe file names.
- `Publication`: concurrent publishers of one target, dangling links at the target, errors of making the directory, of the rename for reasons of the system and of the flushes, which end like an error at the step before or after them, and replacing an empty directory by a tree on a platform that refuses it; no caller replaces a tree.
- `OutboundDelivery`: the resynchronize message sent on overflow, which bypasses the queue, and a send that throws.
- `TimelineReplica` and `ReadStateReplica`: reloading the catalog while a Session is open, the optimistic read state shown on presenting the tail, attention summaries, and merging older pages.
- `Json`: doubles. A number is its literal, and SyncCursor takes the reading of literals as a parameter that reads the decimals of safe integers as themselves.
- `CommandJournal`: concurrent changes to the journal while the Host is being asked, failures of the Client's storage, and object keys that JavaScript orders or treats specially.
