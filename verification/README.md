# Verified model of the monitor's durable logic

A Dafny 4.11 model of the parts of the monitor whose correctness spans several functions, several runs or a
crash, with proofs of what they keep. `dafny verify dfyconfig.toml` verifies the whole project. Nothing of the
original program was executed.

The modules, one per component:

| module | component |
|---|---|
| `AlertTypes`, `AlertEvaluators`, `AlertReducer` | the rule evaluators and the six-state alert machine with dwell and hysteresis |
| `AlertInstances` | which row an evaluation acts on, and the plain fold of the reducer over accepted events |
| `AlertRunner` | the pass scheduler as a class, and whole runs of one rule |
| `AlertWrites` | the query side: one input with evidence per rule and pass |
| `AlertCapacity`, `AlertOutbox` | capacity admission in 64-bit arithmetic; notification intents |
| `AlertTables`, `AlertRules`, `AlertControls`, `AlertStore` | the alert tables, what holds of them, and each transaction as a method of class `Store` |
| `AlertPasses` | a pass over the plan, and the scheduler running passes over the store |
| `AlertEdits` | runs of the store's transactions, and what a rule edit does to the evaluations after it |
| `AlertGuarantees` | results that cross those modules |
| `Restore` | journalled offline restore as class `Installation` |
| `RecoveryMessages`, `RecoveryManifest`, `RecoveryFraming`, `RecoveryApply`, `SessionActivation` | recovery of retained frames: messages, manifests, descriptor bytes, the apply loop as class `Recovery`, its session activation as class `Session` |
| `SeriesCoverage`, `Sustained` | coverage and gaps of a series; sustained conditions |
| `ByteBudget`, `Uninstall` | the collector byte budget; removal of an installation |
| `Decimal`, `Identifiers`, `Int64`, `Wrappers` | text keys, identifier patterns, saturating addition, options |

## How it is modelled

- Tables are maps and sequences of a class; a transaction is one method, and a refusal leaves every field as it
  was. `Store` carries a ghost log of accepted events, so `Valid()` says that the rows are the fold of the reducer
  over that log.
- A crash is modelled by a `budget` of durable steps. Each write, removal or rename asks for one; when there is none
  left the run ends there. An I/O error that ends a run has the same effect.
- Digests and UUIDs are abstract values, equal exactly when what they are made from is equal. Floating-point byte
  budgets are reals. Times are integers (nanoseconds in the runner, milliseconds elsewhere).
- The order of a Go map iteration is left open: `AlertCapacity.Admit`, `Restore.ListFiles`, `Restore.Installation.CopyLive`
  and `Restore.VerifyBlobs` pick elements in any order.

## What does not hold, and exactly when it does

- **A rule edit can stop the rule, and the whole alert engine with it.** The unique index on instances is over
  deployment, rule, scope fingerprint and generation, without the rule version, while a new revision's first instance
  starts again at generation 1. The insert is refused exactly when another revision of the rule with the same scope has
  rows (`AlertTables.TakenExactlyWhenBlocked`). An update makes a blocked revision exactly when some earlier revision of
  the rule with the new scope has rows (`AlertStore.Store.UpdateRule`); a later evaluation of it that is otherwise
  admissible fails on the constraint and no other does (`AlertStore.Store.ApplyAlertEvaluation`); and no run of any
  transactions frees it (`AlertEdits.Serve`). `AlertEdits.EditStopsTheRule` is a concrete run: one evaluation, the rule
  switched off and on, and the next evaluation refused. Since a pass stops at the first refused write
  (`AlertPasses.EvaluateCurrent`), one such revision fails every pass and marks every cycle restarted
  (`AlertPasses.RunPasses`), so that no rule with a dwell opens or resolves any more except at once
  (`AlertRunner.FailingPassesServeNoDwell`).
- **A clock that goes back can strand a restore.** A journal is read back exactly when recovery point, start and
  completion are in order; otherwise every later restore and every start is refused (`Restore.Installation.Restore`).
- **Acknowledgement order matters but is not checked.** Acceptance allows receipts in any order, while the resumed
  apply compares them in order. A batch whose acknowledgement is pending is counted once exactly if the receipts are in
  the order of the frames and twice otherwise (`RecoveryApply.OrderDecides`; `RecoveryApply.SwappedReceiptsCountTwice`
  is a concrete pair). The hub's own answers are in order, so `RecoveryApply.Recovery` counts every frame once.
- **A pending activation can strand an apply.** The pairing hands back a request that is already pending, but the apply
  completes it under its own boot identifier. The activation goes through exactly when no request for another boot
  was pending when the receipt was made (`SessionActivation.Session.Activate`,
  `SessionActivation.Session.ActivateRepeatedly`).
- **Lag can keep a monitor-health alert alive.** Lag alone never opens one (`AlertRunner.LagNeverOpens`), but it leaves
  the rule FIRING exactly when it was FIRING or RECOVERING (`AlertRunner.LagCanRevive`).
- **A removal's mode is not always held.** A retry in the other mode is stopped, except that a database that is
  there but does not open skips the comparison (`Uninstall.ModeIsHeldExactlyWhen`, `Uninstall.UnopenedDatabaseLosesTheMode`).

## Model

| member | source | states |
|---|---|---|
| AlertEvaluators.EvaluateNeverFabricates | internal/alerts/evaluators.go:78-246 | no rule clears or matches on unqualified data, except a source on incompatible data; every decision is one the reducer takes; which rules can be immediate |
| AlertEvaluators.MatchesExactly | internal/alerts/evaluators.go:78-246 | the bad and the good condition of every rule, for any input |
| AlertEvaluators.ImmediateExactly | internal/alerts/evaluators.go:136-238 | exactly which conditions open, and for a request statistic resolve, without a dwell |
| AlertEvaluators.HeldExactly | internal/alerts/evaluators.go:78-200 | exactly what is evaluable but neither matches nor clears: a runtime in its start-up grace, a busy ratio from 0.80 up to 0.90 |
| AlertEvaluators.FailsExactly | internal/alerts/evaluators.go:129-246 | an input is refused exactly for a number that cannot be |
| AlertEvaluators.QualityShown | internal/alerts/evaluators.go:78-246 | the data quality every decision shows |
| AlertEvaluators.ShippedRules | internal/alerts/evaluators.go:28-76 | a specification is valid exactly as one of the shipped rules, with what it follows across incarnations and the seconds it waits before it opens and before it resolves |
| AlertReducer.RefusedExactlyWhen | internal/alerts/reducer.go:20-40 | an evaluation is refused exactly for a bad spec, row, terminal row or evaluation, and what a bad evaluation is; a valid row is never called invalid |
| AlertReducer.ReduceIsLegal | internal/alerts/reducer.go:41-140 | every accepted evaluation leaves a valid row, moves identity and operator columns never, and writes a transition exactly when the state changes |
| AlertReducer.StepTable | internal/alerts/reducer.go:41-104 | every arrow of the machine with its exact condition, and the dwell kept afterwards |
| AlertReducer.StepTimes | internal/alerts/reducer.go:41-140 | every time column after one step: last sample, last valid sample, the first opening, the resolution |
| AlertReducer.SupersedeEndsAnyLiveRow | internal/alerts/reducer.go:106-126 | superseding takes exactly the live rows to a valid terminal row and keeps data quality and opening time |
| Int64.AddSaturating | internal/alerts/reducer.go:169-174 | the sum, or the largest 64-bit value, never less than before |
| AlertInstances.LoadIsLive | internal/store/alerts_eval.go:431-461 | the row loaded for an evaluation is valid and not terminal |
| AlertInstances.FreshIsBlank | internal/alerts/reducer.go:5-18 | a fresh row is of the next generation, OK, and knows nothing yet |
| AlertInstances.EvaluationKeepsWellFormed | internal/store/alerts_eval.go:431-476 | an evaluation always lands on a well-formed history and keeps it well formed |
| AlertInstances.RuleChangeKeepsWellFormed | internal/alerts/reducer.go:106-126 | a rule change keeps the history well formed and leaves no live row |
| AlertInstances.StepKeepsWellFormed | internal/store/alerts_eval.go:265-317 | evaluations, controls and rule changes all keep histories well formed |
| AlertInstances.FoldIsWellFormed | internal/store/alerts_eval.go:186-321 | after any accepted events: valid rows, generations from 1, only the newest live, transitions dense from 1 and chained from OK |
| AlertInstances.NoReachableRowIsInvalid | internal/alerts/reducer.go:176-198 | no reachable row makes the reducer report an invalid snapshot, and one evaluation touches or adds only the newest row |
| AlertRunner.Runner.Run | internal/alertruntime/runner.go:105-176 | the loop hands out exactly the cycles of the scheduler's state after each pass |
| AlertRunner.LastSuccess | internal/alertruntime/runner.go:161-175 | what the runner remembers after any number of passes is the last successful one, while continuity lasts |
| AlertRunner.UnrestartedLagIsBounded | internal/alertruntime/runner.go:123-149 | a pass not marked restarted follows a successful one; its elapsed time and lag are at most seven seconds |
| AlertRunner.CycleExactly | internal/alertruntime/runner.go:123-149 | restart mark, elapsed time and lag of every pass, told from the ticks alone |
| AlertRunner.ControlsKeepRow | internal/store/alerts_control.go:26-99 | operator controls between passes keep the rows well formed and touch only operator columns of the row the next write acts on |
| AlertRunner.RowsAreWellFormed | internal/store/alerts_eval.go:431-476 | from any well-formed rows found at the start, the rows after any number of passes and controls are well formed |
| AlertRunner.RowStep | internal/store/alerts_eval.go:265-288 | the row after a pass is the reducer's answer, or a fresh row after a terminal state, up to operator columns |
| AlertRunner.FirstWriteIsRestarted | internal/alertruntime/runner.go:140-149 | the first write of a process on a row that was already dwelling is marked restarted |
| AlertRunner.StretchGrows | internal/alertruntime/runner.go:141-149 | one more sample of the awaited predicate extends the stretch that explains the dwell, or starts a new one |
| AlertRunner.DwellingWrite | internal/alerts/reducer.go:41-101 | a write that leaves the row waiting is a sample of what it waits on, and what is held is told exactly |
| AlertRunner.DwellIsExplained | internal/alerts/reducer.go:41-101 | over whole runs, over stored rows and rules made while the hub runs included, a dwell the process has written never exceeds the monotonic time of a stretch of consecutive agreeing passes |
| AlertRunner.DwellIsSound | internal/alerts/reducer.go:62-101 | a non-immediate PENDING to FIRING or RECOVERING to RESOLVED step ends a stretch of consecutive passes of this process at least the dwell long, never less than thirty seconds and sixty for a busy processor, also when the row was left waiting by an earlier process |
| AlertRunner.WaitStep | internal/alerts/reducer.go:62-101 | one agreeing pass ends a wait exactly when what is held reaches the dwell |
| AlertRunner.WaitEndsExactly | internal/alerts/reducer.go:62-101 | consecutive agreeing passes open, or resolve, exactly at the first by which they have counted the dwell, and until then the row holds exactly what was counted |
| AlertRunner.CountedIsElapsed | internal/query/alerts.go:82-145 | what a wait has counted is within a millisecond per pass of the monotonic time that passed |
| AlertRunner.FailingPassesServeNoDwell | internal/alertruntime/runner.go:140-163 | while no pass succeeds every write is marked restarted and nothing with a dwell opens or resolves except at once |
| AlertRunner.NoDwellServed | internal/alerts/reducer.go:41-101 | a sample after a restart neither opens nor resolves, except at once or without a dwell |
| AlertRunner.MonitorDecision | internal/alerts/evaluators.go:218-238 | a monitor-health match is urgent and immediate, or is lag over 15 s and is neither |
| AlertRunner.FiresAfter | internal/alerts/reducer.go:62-101 | with lag seen only on restarted passes, one step opens the alert exactly for urgent decisions, and lag leaves it firing exactly from FIRING or RECOVERING |
| AlertRunner.LagNeverOpens | internal/alertruntime/runner.go:123-149 | in any run the step from OK or PENDING to FIRING of monitor health is storage pressure or failed delivery, never lag |
| AlertRunner.LagAloneStaysQuiet | internal/alerts/evaluators.go:231-233 | a run that starts in OK or PENDING and sees no urgent facts never leaves them |
| AlertRunner.LagCanRevive | internal/alerts/reducer.go:83-101 | in any run a lag match leaves the rule FIRING exactly when it was FIRING or RECOVERING |
| AlertWrites.PlannedDecisionAgrees | internal/query/alerts.go:508-518 | planning with a placeholder scope decides as the store does with the real one |
| AlertWrites.DecidesExactly | internal/query/alerts.go:184-361 | planning and evaluating together match exactly on the rule's bad condition of the facts read, and clear exactly on its good one |
| AlertWrites.MatchHasEvidence | internal/query/alerts.go:82-486 | a matching input comes with evidence of the value that matched, in a window around its observation |
| AlertWrites.DwellAccountsAgree | internal/query/alerts.go:488-506 | a write that makes the reducer open FIRING passes both dwell checks and the evidence check of the store |
| AlertWrites.BuiltColumns | internal/query/alerts.go:82-145 | the columns of a write beside its input: the next ordinal, the pass's own times and mark, the window of its evidence, and for reachability exactly what the valid sample says |
| AlertWrites.EvidenceIsRead | internal/query/alerts.go:184-418 | evidence is the very value that was read, at the time of the sample, of the report, or of the pass |
| AlertWrites.NotBuiltExactly | internal/query/alerts.go:82-183 | a write cannot be built exactly when the ordinals are used up or the rule's host or target is gone |
| AlertWrites.WorseIs | internal/query/alerts.go:603-609 | of two qualities incompatible before stale before unknown before valid |
| AlertWrites.StatusIs | internal/query/alerts.go:580-601 | when the last report calls a source stale, valid and incompatible |
| AlertWrites.BuildAlertWrites | internal/query/alerts.go:58-80 | with the single-rule builder, one write per rule in order, or none at all exactly when the cycle is out of range or a rule cannot be built; of the rules on one target the first keeps its episode |
| AlertCapacity.AdmitClass | internal/store/alerts_eval.go:388-408 | the guarded 64-bit comparison decides exactly whether the true sum fits the class |
| AlertCapacity.Admit | internal/store/alerts_eval.go:352-411 | admission is exactly a usable measurement and room in all three classes, whatever their order; no sum overflows |
| AlertCapacity.OverflowMeansNoFit | internal/store/alerts_eval.go:379-381 | the early overflow guard refuses nothing that would fit |
| AlertCapacity.LedgerIsTheSum | internal/store/alerts_eval.go:337-411 | along any attempts the pending ledger is the sum of admitted reservations and every class stays within its limit |
| AlertOutbox.NewIntentsSound | internal/store/alerts_eval.go:614-639 | every new intent is for an enabled current destination, under its own key |
| AlertOutbox.NewIntentsComplete | internal/store/alerts_eval.go:614-639 | every enabled destination gets a new intent |
| AlertOutbox.NewIntentsDistinct | internal/store/alerts_eval.go:614-639 | no destination gets two |
| AlertOutbox.ResolveLeavesOneNewIntentEach | internal/store/alerts_eval.go:581-588 | after a resolution no earlier intent is pending, failed or muted and every enabled destination has one new one |
| AlertOutbox.CurrentSummary | internal/store/alerts_control.go:204-243 | summaries go exactly to enabled destinations without an open intent; refused exactly over the limit or on a used key |
| AlertOutbox.UnmuteRows | internal/store/alerts_control.go:71-97 | after an unmute nothing is muted, each muted intent is pending or superseded as it should be, and a firing alert serves every enabled destination |
| AlertControls.MuteSilences | internal/store/alerts_control.go:50-58 | after a mute nothing is pending or failed and nothing sent or in flight has changed |
| AlertControls.Mutate | internal/store/alerts_control.go:26-99 | a control changes one operator column and the outbox as promised; it is refused when not permitted, and otherwise only an unmute over the destination limit or on a used summary key |
| AlertControls.ChangesKeepRevision | internal/store/alerts_control.go:101-150 | a control is one event of the fold and keeps everything that holds of the revision |
| AlertRules.SupersedeInstances | internal/store/alerts_rules.go:442-485 | every instance of the old revision ends as the reducer's Supersede would end it, its incident closed and its open intents superseded |
| AlertRules.EndedIsOK | internal/store/alerts_rules.go:442-485 | an ended instance is valid and terminal; an open incident ends at the change, or a millisecond after its start if the clock went back; intents pending, failed or muted are superseded and no other changes |
| AlertRules.EndingKeepsRevision | internal/store/alerts_rules.go:442-485 | a rule change is one event of the fold after which every row is terminal |
| AlertRules.SucceedingKeepsConsistent | internal/store/alerts_rules.go:169-192 | making a new, empty revision current keeps the tables consistent |
| AlertTables.EvolvesKeepsInstance | internal/store/alerts_eval.go:274-312 | whatever an evaluation does to an instance, its incidents are the ones its new state calls for |
| AlertTables.AcceptKeepsRevision | internal/store/alerts_eval.go:265-317 | an accepted evaluation is one step of the fold with a larger ordinal |
| AlertTables.TakenExactlyWhenBlocked | internal/store/schema.sql:621-642 | the insert of a revision's next generation is refused exactly when another revision with its scope has rows |
| AlertTables.AddingBlocksExactly | internal/store/alerts_rules.go:169-192 | a new revision is blocked exactly when some revision of the rule with its scope has rows, and making it frees nothing |
| AlertTables.ReplacingKeepsBlocked | internal/store/schema.sql:639 | rows that are never removed, and none added to a blocked revision, keep every blocked revision blocked |
| AlertTables.CommitEvaluation | internal/store/alerts_eval.go:286-321 | an accepted evaluation keeps the tables consistent, and its cursor reads its own result back |
| AlertTables.RowsOfStep | internal/store/alerts_eval.go:478-640 | the incident and notification rows of one step, spelled out in times and columns |
| AlertStore.CheckCursor | internal/store/alerts_eval.go:231-249 | next input, exact retry or conflict, exactly by version and ordinal; a retry reads the stored result |
| AlertStore.NewestOf | internal/store/alerts_eval.go:436-437 | the row with the highest generation is the last one |
| AlertStore.LoadSnapshot | internal/store/alerts_eval.go:431-461 | the newest live row, else a fresh one of the next generation |
| AlertStore.WriteRows | internal/store/alerts_eval.go:478-589 | incident and outbox rows are written exactly when the opening or closing checks hold, and are the ones the transition demands |
| AlertStore.Store.Gate | internal/store/alerts_eval.go:186-252 | exactly when a write goes on, and exactly when it is an exact retry |
| AlertStore.Store.Propose | internal/store/alerts_eval.go:265-285 | a row is proposed exactly when the reducer takes the write and capacity admits what it makes of it |
| AlertStore.Store.ProposedGeneration | internal/store/schema.sql:621-642 | the unique index refuses the proposed row exactly when the revision is blocked |
| AlertStore.Store.Advance | internal/store/alerts_eval.go:265-312 | exactly when an input that passed the fences is committed, the instance it leaves, and that the constraint fails exactly for a blocked revision and an admissible input |
| AlertStore.Store.Commit | internal/store/alerts_eval.go:286-321 | the whole new state of an accepted evaluation |
| AlertStore.Store.ApplyAlertEvaluation | internal/store/alerts_eval.go:186-321 | refused and retried inputs change nothing, an accepted one is one more event of the fold and one instance's change; exactly when each happens; a blocked revision takes none, fails on the constraint exactly when the input is otherwise admissible, and stays blocked |
| AlertStore.Store.Perform | internal/store/alerts_control.go:136-194 | a control without a receipt is admitted and changes one instance, or changes nothing |
| AlertStore.Store.MutateControl | internal/store/alerts_control.go:101-194 | refusals and live retries change nothing, a retry repeats its result, a new control changes one instance and is one event of the fold |
| AlertStore.Store.CreateRule | internal/store/alerts_rules.go:110-192 | created exactly for a valid definition within the rule limit; nothing else changes |
| AlertStore.Store.EndRows | internal/store/alerts_rules.go:442-485 | every row of a revision ends, as one event of the fold |
| AlertStore.Store.UpdateRule | internal/store/alerts_rules.go:103-192 | the old revision comes to rest, the new one is empty; it is blocked exactly when some earlier revision with its scope has rows |
| AlertStore.Store.Dispatch | internal/store/schema.sql:782-812 | deliveries that only move intents between states keep all of it |
| AlertPasses.ReadPlan | internal/store/alerts_runtime.go:136-203 | each planned rule comes with its own definition, the row of the highest generation, absent exactly when the revision has none, and the last ordinal it accepted, absent exactly when it accepted none |
| AlertPasses.EntryIsOwn | internal/store/alerts_runtime.go:136-203 | on consistent tables the plan entry of a current revision says what its rows and its accepted evaluations say |
| AlertPasses.BuiltIsNext | internal/query/alerts.go:87-95 | a built write carries the ordinal after the last its revision has accepted, or 1 |
| AlertPasses.BuiltIsNoRetry | internal/query/alerts.go:87-95 | a write built from the plan is past its revision's cursor, so it is never answered as a retry |
| AlertPasses.ApplyInOrder | internal/query/alerts.go:50-54 | the writes are committed one by one up to the first refusal, rules after it are as they were, and a blocked revision stops it |
| AlertPasses.EvaluateCurrent | internal/query/alerts.go:31-56 | a pass succeeds exactly when every planned write is committed; one blocked revision fails it and nothing planned after it is written |
| AlertPasses.RunPasses | internal/alertruntime/runner.go:115-176 | over any run of passes the cycles are the scheduler's; while a planned revision is blocked every pass fails and every cycle is marked restarted |
| AlertEdits.ServeOne | internal/store/schema.sql:639 | no transaction of any kind frees a blocked revision, and an evaluation of one is turned away |
| AlertEdits.Serve | internal/store/schema.sql:639 | the same over any run of transactions |
| AlertEdits.QuietIsAdmissible | internal/store/alerts_eval.go:265-312 | an evaluation that observed nothing is turned away from a revision without rows only if it is blocked or the cursors are full |
| AlertEdits.EditStopsTheRule | internal/store/alerts_rules.go:103-192 | a concrete run: created, evaluated once, switched off and on, next evaluation refused by the constraint |
| AlertGuarantees.EveryRow | internal/store/alerts_eval.go:274-312 | any row of consistent tables: valid, a dwell only while it waits, an opening and a resolution only when its state has one, generation by position, dense chained transitions, the incidents its state calls for, equal to the fold |
| AlertGuarantees.OneLiveRowPerRule | internal/store/alerts_eval.go:431-461 | at most one live row per rule over all revisions and scopes: the newest of the current revision |
| AlertGuarantees.AcceptedOrdinalsIncrease | internal/store/alerts_eval.go:231-249 | accepted ordinals of a revision strictly increase and its rule's cursor is at or past them |
| AlertGuarantees.BuiltWriteOpens | internal/store/alerts_eval.go:478-532 | a built write that opens FIRING is refused only for opaque capsule checks, the incident cap or the destination limit |
| AlertGuarantees.PlannedWriteOpens | internal/query/alerts.go:488-506 | a write of a pass that opens FIRING on a revision still as it was planned is refused exactly for the opaque capsule checks, the incident cap or more than 16 enabled destinations |
| AlertGuarantees.OpeningIsShown | internal/store/alerts_eval.go:478-532 | whoever built the write, the store opens an alert only with evidence of the rule's own bad condition and of the very input that was decided on |
| AlertGuarantees.OpeningHasWaited | internal/store/alerts_eval.go:494-550 | and unless it is immediate or about a heartbeat only after thirty, for a busy processor sixty, seconds that the row and the pass account for |
| AlertGuarantees.EvaluationRows | internal/store/alerts_eval.go:478-640 | what an accepted evaluation writes: the incident opened or ended and when; one notification for every enabled destination, pending unless the mute runs past the event and muted exactly then; nothing else |
| AlertGuarantees.EvaluationCharges | internal/store/alerts_eval.go:323-411 | the bytes an accepted evaluation is charged in each class, by what it does to the alert |
| AlertGuarantees.WriteCarriesTheCycle | internal/query/alerts.go:82-145 | the write of a pass carries the runner's cycle, so run-level dwell results are about the writes |
| AlertGuarantees.ResolutionCloses | internal/store/alerts_eval.go:552-606 | resolving always finds its open incident; exactly when it still fails |
| Restore.VerifyBlobs | internal/lifecycle/restore.go:517-562 | counting what was seen decides exactly whether a directory is the manifest's tree |
| Restore.SameSizeIsEqual | internal/lifecycle/restore.go:558-560 | entries that all agree and are as many are all the entries |
| Restore.ReadJournal | internal/lifecycle/recovery_journal.go:46-93 | the journal checks, with names allowed and distinct |
| Restore.AllFilesDone | internal/lifecycle/restore.go:269-321 | when every journalled file is its prepared version the live files are the prepared ones and no temporary is left |
| Restore.FileMoves | internal/lifecycle/restore.go:269-321 | a step on one file keeps what holds of all |
| Restore.BlobMoves | internal/lifecycle/restore.go:474-514 | a step on one blob directory keeps what holds of all |
| Restore.ListFiles | internal/lifecycle/restore.go:213-229 | the journal lists every fixed file that exists before or after, once, with both digests |
| Restore.Installation.RequireRecoveryReady | internal/lifecycle/recovery_journal.go:110-122 | ready exactly without a journal or with a readable committed one, and then the live files are a whole set |
| Restore.Installation.Replace | internal/lifecycle/restore.go:292-320 | a cut-off replacement leaves the earlier version live; a finished one the prepared version |
| Restore.Installation.InstallFile | internal/lifecycle/restore.go:269-321 | never stuck on a changed live file; the file ends in its prepared version or absent |
| Restore.Installation.InstallFiles | internal/lifecycle/restore.go:269-321 | not cut off, the live files are exactly the prepared ones |
| Restore.Installation.InstallBlob | internal/lifecycle/restore.go:474-514 | never stuck on an existing displaced directory; the directory ends in place |
| Restore.Installation.InstallBlobs | internal/lifecycle/restore.go:453-515 | not cut off, all three directories are the manifest's and the earlier ones are displaced |
| Restore.Installation.Activate | internal/lifecycle/restore.go:245-338 | a run that is not cut off commits exactly the prepared file set from wherever an earlier one stopped, in a bounded number of steps |
| Restore.Installation.CopyLive | internal/lifecycle/restore.go:141-154 | every live file is copied to displaced in one step each, and nothing live changes |
| Restore.Installation.Prepare | internal/lifecycle/restore.go:108-232 | nothing live changes until a journal that is fully in progress is durable; every earlier transaction stays |
| Restore.Installation.Record | internal/lifecycle/restore.go:213-232 | the journal carries the request's deployment and generation, the attempt's transaction, new generation and times, and lists the files to replace |
| Restore.Installation.Begin | internal/lifecycle/restore.go:108-237 | a new restore past its checks is never refused, finishes within a bounded number of steps, and installs its backup |
| Restore.Installation.Decide | internal/lifecycle/restore.go:47-107 | which requests start a restore, take one up, or are answered again, each exactly when |
| Restore.Installation.Resume | internal/lifecycle/restore.go:69-78 | a restore that is taken up ends in the prepared file set or is cut off with its journal as it was |
| Restore.Installation.Restore | internal/lifecycle/restore.go:47-237 | refusals change nothing; a new restore is refused exactly when it may not start and an exact resume never; with steps enough both finish; cut off, a new restore leaves a journal of its own request, which resumes it; what a finished run installed; exactly when the committed journal can be read again |
| Restore.Installation.RunMonitor | internal/lifecycle/recovery_journal.go:110-122 | the monitor starts only on a whole file set |
| Restore.Installation.ResumeRepeatedly | internal/lifecycle/restore.go:69-78 | any crashes and exact resumes end in the file set of an uninterrupted run |
| Restore.Installation.RestoreThroughCrashes | internal/lifecycle/restore.go:47-237 | a restore and its resumptions through any crashes: once one run could make the journal durable and one had steps enough, the backup is live and everything earlier is kept |
| Restore.Installation.NothingIsLost | internal/lifecycle/restore.go:245-338 | at every point each live file is its old or prepared version, everything live before is live or displaced, and a mixed set means the journal says prepared |
| Decimal.JoinedIsInjective | internal/protocol/recovery.go:486 | a key of slash-free parts is made from no other parts, even ones with slashes |
| Decimal.TextIsInjective | internal/protocol/recovery.go:468 | different sequence numbers have different numerals |
| Decimal.NumeralIsDecimal | internal/protocol/recovery.go:468 | a numeral writes its number in decimal without leading zeros |
| RecoveryMessages.ValidateFrames | internal/protocol/recovery.go:458-473 | the frame loop accepts exactly valid frames that are all different |
| RecoveryMessages.ValidateReplay | internal/protocol/recovery.go:454-478 | a replay is accepted exactly with a valid envelope, valid distinct frames and the canonical scope digest |
| RecoveryMessages.MatchReceipts | internal/protocol/recovery.go:484-500 | the receipt loop accepts exactly a one-to-one match; an unknown key with an empty digest is caught only by what is left over |
| RecoveryMessages.NothingLeft | internal/protocol/recovery.go:496-499 | the counting argument behind it |
| RecoveryMessages.ValidateACK | internal/protocol/recovery.go:480-502 | accepted exactly when the envelope is the request's, receipts and frames correspond one to one with equal digests, and the counts are those of the dispositions |
| RecoveryMessages.ReplayKeysAreOwn | internal/protocol/recovery.go:484-487 | no two frames of a replay share a key and no other identity has one of their keys |
| RecoveryManifest.ValidateSegments | internal/protocol/recovery.go:367-381 | comparing each start with the last end of its source decides exactly whether all segments are apart |
| RecoveryManifest.NextAgainstLast | internal/protocol/recovery.go:372-375 | the one comparison stands for all earlier segments |
| RecoveryManifest.ApartIsAboutTheMultiset | internal/protocol/recovery.go:359-360 | whether segments are apart does not depend on their order |
| RecoveryManifest.SumsOfMultiset | internal/protocol/recovery.go:376-380 | nor do the totals |
| RecoveryManifest.FramesAreDistinct | internal/protocol/recovery.go:367-380 | apart segments name as many frames as their counts add up to |
| RecoveryManifest.ValidateTargets | internal/protocol/recovery.go:421-427 | accepted exactly for valid targets, each once; the set it hands on is theirs |
| RecoveryManifest.ValidateSourceDefinitions | internal/protocol/recovery.go:428-443 | accepted exactly when the definitions are the sources, each once, on defined targets |
| RecoveryManifest.ValidateModels | internal/protocol/recovery.go:444-450 | accepted exactly for valid models of defined targets, each once |
| RecoveryManifest.ValidateDefinitions | internal/protocol/recovery.go:413-452 | the historical definitions are accepted exactly when they are whole |
| RecoveryManifest.ValidateSources | internal/protocol/recovery.go:361-366 | accepted exactly for distinct UUIDs |
| RecoveryManifest.Validate | internal/protocol/recovery.go:348-392 | the verdict depends on the segments as a collection only, not on their order or on how the sort breaks ties |
| RecoveryManifest.TotalFramesIsTheCount | internal/protocol/recovery.go:378-380 | an accepted manifest's total is the number of different frames named |
| RecoveryFraming.Sink.Write | internal/protocol/recovery.go:58-73 | an invalid descriptor is refused before anything is written; a valid one adds its frame |
| RecoveryFraming.Sink.WriteAll | internal/lifecycle/collector_recovery_cli.go:542-558 | a list is written as its frames in order |
| RecoveryFraming.BigEndianRoundTrip | internal/protocol/recovery.go:66-67 | the length can be read back |
| RecoveryFraming.JsonIsInjective | internal/protocol/recovery.go:51-56 | two valid descriptors with the same text are the same |
| RecoveryFraming.JsonText | internal/protocol/recovery.go:51-56 | the text that goes into digests |
| RecoveryFraming.ReadRecoversTheTexts | internal/protocol/recovery.go:58-73 | reading the lengths back recovers exactly the texts written |
| RecoveryFraming.StreamsAreUnique | internal/protocol/recovery.go:48-73 | two descriptor lists with the same byte stream are equal |
| RecoveryApply.PendingMatches | internal/lifecycle/collector_recovery_cli.go:577-589 | true exactly when the receipts are these records in order |
| RecoveryApply.OrderDecides | internal/lifecycle/collector_recovery_cli.go:395-440 | a round on a batch whose accepted acknowledgement is pending counts it once exactly if the receipts are in frame order, and twice otherwise |
| RecoveryApply.SwappedReceiptsCountTwice | internal/lifecycle/collector_recovery_cli.go:400-440 | a swapped pair is accepted, counted on resuming, and counted again when its batch is answered |
| RecoveryApply.TerminalReceiptsAreCounted | internal/protocol/recovery.go:489-499 | receipts that are all terminal are counted once each by the two dispositions |
| RecoveryApply.Answer | internal/store/recovery.go:582-664 | refused exactly when a frame of the batch is known with another payload, by receipt or by the frame held; otherwise the same answer whenever it is asked; no held frame and no receipt ever changes |
| RecoveryApply.PassedHaveNoConflict | internal/store/recovery.go:582-664 | batches the cursor has passed are at the hub with their own payloads |
| RecoveryApply.NextTells | internal/lifecycle/collector_recovery_cli.go:400 | a batch just passed is never mistaken for the next |
| RecoveryApply.SettlingIsCoherent | internal/lifecycle/collector_recovery_cli.go:400-407 | counting an acknowledgement that does not cover the next records keeps counts and cursor together |
| RecoveryApply.Recovery.Ingest | internal/store/recovery.go:505-699 | the hub's transaction answers, or is refused exactly on a conflicting payload and changes nothing; every held frame keeps its payload |
| RecoveryApply.Recovery.Advance | internal/lifecycle/collector_recovery_cli.go:395-441 | one round moves the cursor by one counted batch and leaves the receipt the counting rules say, ends at the end, or is cut off with everything coherent |
| RecoveryApply.Recovery.Apply | internal/lifecycle/collector_recovery_cli.go:316-455 | a report counts every frame once, as recovered exactly when the hub did not hold it, and is complete exactly when all of the grant's frames are counted; with steps enough it is declined exactly when some frame is held with another payload; no held frame ever changes |
| RecoveryApply.Recovery.ApplyRepeatedly | internal/lifecycle/collector_recovery_cli.go:316-455 | the same over any crashes and retries |
| RecoveryApply.Recovery.CountsFollowTheCursor | internal/lifecycle/collector_recovery_cli.go:395-446 | at every point the counts are the cursor's, or one pending batch behind, and the comparison tells which; passed batches are durable at the hub |
| SessionActivation.Session.HubActivate | internal/store/collector_session.go:31-119 | a known request gets its own session while it is current, a new one a generation above all earlier, nothing changes otherwise |
| SessionActivation.Session.PrepareActivation | internal/collector/pairing/state.go:317-337 | a pending request is kept, otherwise one for the receipt's boot is made durable |
| SessionActivation.Session.Allocate | internal/lifecycle/collector_recovery_cli.go:361-380 | the session is in the hub before it is in the receipt, once |
| SessionActivation.Session.Obtain | internal/lifecycle/collector_recovery_cli.go:361-380 | a receipt without a session gets one in three steps at most, for the request that was pending or a new one |
| SessionActivation.Session.Complete | internal/collector/pairing/state.go:339-350 | the pending request is cleared with the receipt's session, exactly unless it is for another boot |
| SessionActivation.Session.Activate | internal/lifecycle/collector_recovery_cli.go:360-389 | exactly when activation can end well; at most one session, under the receipt's boot; four steps suffice |
| SessionActivation.Session.ActivateRepeatedly | internal/lifecycle/collector_recovery_cli.go:360-389 | the same over any crashes and retries |
| SeriesCoverage.LatestIs | internal/query/series.go:319-324 | from a point to the next it is the latest one |
| SeriesCoverage.AppendGap | internal/query/series.go:345-354 | appending keeps the gaps tidy and exact, joining or dropping as needed |
| SeriesCoverage.Share | internal/query/series.go:338-342 | the clamp at 1 never acts |
| SeriesCoverage.CoverageAndGaps | internal/query/series.go:312-343 | gaps are exactly the uncovered instants with their reasons, sorted, disjoint, in the window and never abutting with one reason; covered time and gaps are the window |
| Sustained.GapBetween | internal/investigation/builder.go:478-488 | some gap overlaps the stretch |
| Sustained.MaximalSpansMost | internal/investigation/builder.go:448-456 | of the runs with one end the maximal one spans most |
| Sustained.SustainedNumeric | internal/investigation/builder.go:435-461 | succeeds exactly when some unbroken qualifying run spans the minimum; the earliest such end, the maximal run's start and its peak |
| Sustained.SustainedState | internal/investigation/builder.go:408-433 | stops at the earlier of the first critical reading and the earliest end of a long enough warning run |
| ByteBudget.Budget.TakeBytes | internal/lifecycle/collector_socket.go:266-282 | the method is the budget's step |
| ByteBudget.Budget.TakeReplayBytes | internal/lifecycle/collector_socket.go:283-292 | the method is the budget's replay step |
| ByteBudget.Budget.Serve | internal/lifecycle/collector_socket.go:252-292 | any run of calls admits exactly what the steps admit |
| ByteBudget.WindowBound | internal/lifecycle/collector_socket.go:259-292 | in any window of T seconds at most 262144 + 262144 T ordinary and 262144 + 131072 T replay bytes |
| ByteBudget.LargeBodiesNever | internal/lifecycle/collector_socket.go:264-280 | a body over 262144 bytes, or a control request over 4096, is never admitted |
| ByteBudget.ControlBound | internal/lifecycle/collector_socket.go:270-276 | in any window at most floor(T/5) + 1 control requests |
| ByteBudget.RoomIsTheLeast | internal/lifecycle/collector_socket.go:259-265 | what a bucket holds is the least that any window leaves, and some window leaves exactly that |
| ByteBudget.AdmittedExactly | internal/lifecycle/collector_socket.go:266-292 | a body is admitted exactly when it fits every window that ends with it |
| ByteBudget.ControlExactly | internal/lifecycle/collector_socket.go:270-276 | a control request is admitted exactly when it is small and none was admitted in the five seconds before |
| Uninstall.ModeIsHeldExactlyWhen | internal/lifecycle/manager.go:598-628 | exactly when a retry in the other mode is stopped |
| Uninstall.DecideExactly | internal/lifecycle/manager.go:598-638 | the decision goes ahead exactly when a removal may, and for that deployment, generation and mode |
| Uninstall.PurgeIsConfirmed | internal/lifecycle/manager.go:634-638 | a purge that may go ahead names its own deployment and acknowledges the backup |
| Uninstall.UnopenedDatabaseLosesTheMode | internal/lifecycle/manager.go:626-628 | a concrete purge over a keep-data receipt |
| Uninstall.Machine.RemoveOrdinary | internal/lifecycle/manager.go:669-687 | ordinary paths of the inventory go, up to the first that cannot be removed; with no failure none is left |
| Uninstall.Machine.RemoveKept | internal/lifecycle/manager.go:688-699 | the database goes only with the data and before the hub binary |
| Uninstall.Machine.Apply | internal/lifecycle/manager.go:589-707 | it goes ahead exactly when a removal may: not a preview, the generation named is that of the database that opens, else of the collector configuration, else of the receipt, a purge confirms that deployment and acknowledges the backup, and the mode is not held; the receipt is of that deployment, generation and mode; keep-data removes no data; the receipt is first and last; database after ordinary paths, hub binary after the database; nothing outside the inventory; success when nothing fails |
| Uninstall.Machine.Setup | internal/lifecycle/manager.go:226-230 | setup goes on exactly without a receipt |
| Uninstall.Machine.PartialRemovalIsMarked | internal/lifecycle/manager.go:640-707 | while a removal is partial its receipt is there |

## Left out

- HTTP handlers, command-line parsing, JSON output, the web interface, launchd, sockets and TLS.
- SQL text: queries are maps, `UPDATE ... WHERE` a function on rows; random identifiers are positions in those maps.
- Not-a-number and infinite readings: ratios and durations are reals, out-of-range ones are refused as in the source.
- Counters (`generation`, `transition_seq`, input ordinals) are unbounded integers; dwell, elapsed times and capacity are 64-bit.
- `safeReason` and reason strings: reasons are a datatype, so a rejected reason string does not occur.
- Field-by-field evidence capsule validation beyond the value and window of the rule's own metric: one flag of the environment.
- Episode rows, fences against retired hosts and targets, and session checks of `ApplyAlertEvaluation`: flags of the environment.
- `AlertStore.Store.MutateControl`: audit rows and the mute's reason text are not modelled; a reused summary key is reported as the destination limit.
- `AlertStore.Store.UpdateRule`: rule receipts, ownership of the scope and audit rows are not modelled.
- `AlertRunner.DwellIsSound`: a run is one process and one revision; it ends before the revision is replaced.
- `AlertPasses.EvaluateCurrent`: no other transaction comes between reading the plan and its writes; what the snapshot says and each write's digest are given; a plan or snapshot that cannot be read fails the pass without a write, like a rule that cannot be built.
- `AlertGuarantees.EveryRow` is not about rows brought back by a restore: `internal/store/restore.go:149` sets their state to superseded without a transition.
- `AlertStore.Store.ApplyAlertEvaluation`: clock readings are taken to be at least a day below the largest 64-bit value.
- `SessionActivation.Session`: the collector is taken to stay stopped between the runs of an apply; security generations are not modelled.
- Store-wide incident and outbox limits other than the destination limit; the delivery dispatcher is `AlertStore.Store.Dispatch` only.
- `Restore.Installation.Restore`: the backup's contents are given by the caller; space, ownership and symbolic-link checks only end a run early. Reading the live database is taken not to change its files although `internal/lifecycle/restore.go:160` opens it after its `-wal` and `-shm` files were copied, so this is an assumption about the program itself and not only about others.
- Files that someone else edits while a restore is prepared: `Restore.Installation` has no such step, so its refusals for changed files never act.
- `ValidateRecoveryDeployment`, recovery inspection and re-enrolment after a restore.
- `RecoveryApply.Recovery`: the envelope of requests and acknowledgements, grant expiry, and frames removed from the spool by age are not modelled; the spool hands out the approved batches in order.
- `RecoveryManifest.ValidateDefinitions`: whether a model's alias is a safe string is a flag.
- The manifest sort itself: any sorted permutation is taken.
- `Sustained.SustainedNumeric` and `Sustained.SustainedState` start after the sort by time and take any order of equal times.
- Rollup values, series selection (`buildSeries`, `automaticSeriesResolution`, `validSeriesRange`) and evidence cards other than their sustained conditions.
- `ByteBudget.Budget`: rounding of floating point; requests without a length are not modelled.
- `Uninstall.Machine.Apply`: partially removed directories count as present; stopping services is one flag.
- Grant validation, preview of the spool, and receipt-ledger shape checks, which add only easy members.
