# PrimitiveBox in Dafny

PrimitiveBox runs the actions of software agents as *primitives* inside a sandbox: it checkpoints the workspace,
dispatches, verifies, and rolls back when verification fails. This project models the protocols at its core and
proves what they guarantee on every input, every run and every interleaving.

| file | part of the system |
|---|---|
| `PrimitiveExecutor.dfy`, `Cvr.dfy`, `StepEngine.dfy`, `Orchestrator.dfy`, `StepTheorems.dfy`, `StepIntents.dfy`, `StepRecovery.dfy`, `StepExamples.dfy` | one step of a task: the checkpoint-verify-recover coordinator, the two decision tables, rollback, the retry loop |
| `Transaction.dfy`, `SerialExecutor.dfy` | the sandbox runtime: one job's transaction, and many cancellable callers before one worker |
| `Goal.dfy`, `GoalCoordinator.dfy`, `GoalTheorems.dfy`, `GoalInterleaving.dfy`, `GoalRefinement.dfy` | the goal control plane with its human review gate, run by run and interleaved |
| `McpFraming.dfy`, `McpSession.dfy` | the MCP bridge: length-prefixed frames, and the request/response session over them |
| `KvData.dfy`, `KvSpec.dfy`, `KvStores.dfy`, `KvAdapter.dfy` | the key-value adapter: two stores, one specification, rollback, export and import |
| `AppManifest.dfy`, `ManifestNormalizer.dfy`, `AppRegistry.dfy` | app primitives: manifest normalisation and the SQLite registry |
| `SandboxRouter.dfy` | the router's own call, verify and roll back protocol, compared with the engine's |
| `SymbolDiff.dfy` | the Go symbol differ |
| `Common.dfy`, `Text.dfy` | optional values, JSON documents, trimming, ordered sequences |

Components that update state in place are classes and methods with loops (`Orchestrator`, `Transaction.Runtime`,
`GoalCoordinator`, `McpFraming.ReadMessage`, `KvStores`, `AppRegistry.Registry`, `SandboxRouter.Router`,
`SymbolDiff.Diff`). Each method is proved equal to a function of its inputs or to a property of its result, and the theorems are about those functions.
Concurrent components (`SerialExecutor`, `GoalInterleaving`, `McpSession`) are step relations: a state, the events
that may happen in it, and theorems about every finite run.

The outside world is arbitrary: executors, primitives, verifiers, servers and registries are function-valued
parameters that may depend on the whole history. `dafny verify dfyconfig.toml` checks everything.

## Where the code does less than one might expect

- A step that ends rolled back has the workspace of the start of its *last* attempt. Effects of earlier, retried
  attempts stay (`StepExamples.RolledBackKeepsEarlierAttempts` gives such a run). `StepTheorems.RolledBackToStart`
  says when the step as a whole is undone.
- A rollback can be decided with no checkpoint to go back to. `StepTheorems.MissingCheckpointIff` says exactly when:
  the intent took no checkpoint and either is irreversible and failed, or its app declares a rollback for a mutation
  that failed, erred or timed out. It then ends in an error (missing checkpoint, missing target, fail closed, or a
  declaration or payload that cannot be used), in the declared call alone, or, with rollback declared as "none", in a
  step reported rolled back with nothing called and nothing undone. Runs of both missing errors, of the call alone
  and of nothing undone are given.
- The default tree limits dispatches, not calls: a primitive that is its own rollback is called once more
  (`StepExamples.OwnRollbackIsOneMore`), and a state.checkpoint step is checkpointed before each dispatch
  (`StepExamples.CheckpointStepDoubles`). A step verified by its own primitive returns the verification's result
  (`StepExamples.BorrowedResultHappens`).
- The engine also rolls back a kv.set that failed, with an envelope that has no result, and the adapter then deletes
  the key. `KvAdapter.EngineRollbackIff` says exactly when that is harmless; `KvAdapter.FailedCreateDeletes` is a
  failed create that loses the entry it collided with.
- Router and engine verify with the same call but read its answer differently. `RouterTheorems.VerdictsAgreeIff` says
  exactly when they agree; `RouterTheorems.VerdictsDiffer` gives four answers on which they do not. For a rollback
  declared as state.restore the engine restores the workspace, the router calls the app.
- The SQL store lists by LIKE, which is not a prefix test: `KvSpec.ListingsAgreeIff` says exactly for which prefixes
  the two stores list the same.
- Two overlapping review decisions can both succeed, the later overriding the earlier, because the store reads and
  writes in two statements (`GoalInterleaving.OverlappingDecisionsFlip`). The review gate holds all the same.
- `kv.rollback_set` refuses an envelope whose verification result has a non-text `outcome` or `message`, and then
  undoes nothing (`KvAdapter.RouterRollbackUndoesSet` states both cases).
- `readMCPMessage` has a branch for a Content-Length line without an end; no header reaches it
  (`McpFraming.LengthLineAlwaysEnds`). The SQL batch write has a second conflict check that never fires
  (`KvStores.InsertBatch`).

## Model

| member | source | states |
|---|---|---|
| PrimitiveExecutor.Executor.Execute | internal/orchestrator/engine.go:514-552 | one dispatched call: any reply; a successful checkpoint stores the workspace under its id, a successful restore of a stored id puts it back, every call is traced |
| Cvr.DefaultDecision | internal/cvr/recovery_tree.go:40-100 | which action the five ordered nodes give, both directions for each of the four reachable actions |
| Cvr.FirstMatchDecides | internal/cvr/recovery_tree.go:40-50 | in any tree the first matching node decides; without one the tree aborts |
| Orchestrator.Engine.TakeCheckpoint | internal/cvr/coordinator.go:62-102 | the checkpoint is taken, or the attempt is over and the world is as the failed checkpoint left it |
| Orchestrator.Engine.DispatchAndVerify | internal/cvr/coordinator.go:104-144 | dispatch, verification and recovery decision in place, equal to the function on worlds |
| Orchestrator.Engine.Coordinate | internal/cvr/coordinator.go:51-144 | one coordinator pass in place equals `CvrExecute` |
| Orchestrator.Engine.RollBackDeclared | internal/orchestrator/engine.go:328-363 | fail closed, declared rollback then restore, or plain restore |
| Orchestrator.Engine.RecoverFrom | internal/orchestrator/engine.go:212-294 | how an attempt ends, with the step record's new status |
| Orchestrator.Engine.ExecuteStep | internal/orchestrator/engine.go:139-298 | the retry loop equals `RunStep`; it returns a successful result or an error, never both or neither, and never reaches the return after the loop |
| StepTheorems.StepProtocol | internal/orchestrator/engine.go:139-298 | for every executor, registry and limit a step is a chain of attempts, each begun in the world and with the record the one before left; the run's calls are exactly theirs, each [checkpoint] primitive [verify] [rollback] [restore]; a checkpoint exactly when the intent asks; its failure stops the attempt; exactly when the attempt ends in a rollback, the declared call with its payload and then the restore of the attempt's own checkpoint, and only in the last attempt; the number of calls of the step's primitive, slot by slot; with the default tree at most min(limit + 1, 4) dispatches, at most one call more for any primitive but state.checkpoint, and none more if no verification, rollback, checkpoint or restore goes by the same primitive; rolled back without a manifest means the workspace at the start of the last attempt |
| StepTheorems.StepTrace | internal/orchestrator/engine.go:139-298 | the same chain from any attempt on, the induction behind `StepProtocol` |
| StepTheorems.AttemptCalls | internal/cvr/coordinator.go:51-144 | the exact calls of one attempt, rollback call and restored id included; an attempt that is retried recovered nothing |
| StepTheorems.RollbackCalls | internal/orchestrator/engine.go:328-434 | a rollback makes exactly the declared call, where there is one to make, and then the restore, unless there is no checkpoint, recovery fails closed, or the declared call failed |
| StepTheorems.LateDispatchEnds | internal/cvr/coordinator.go:128-142 | with the default tree a dispatch at attempt 3 or later is the last, whatever the task's limit |
| StepTheorems.FewDispatches | internal/cvr/coordinator.go:135 | the fixed tree limit bounds the number of dispatches |
| StepTheorems.OwnBeyondDispatches | internal/orchestrator/engine.go:390-419 | calls of the primitive beside its dispatches: none if it stands apart, otherwise at most one, in the last attempt |
| StepExamples.OwnRollbackIsOneMore | internal/orchestrator/engine.go:390-419 | a registered manifest whose write is its own rollback: five calls at a limit of three |
| StepExamples.CheckpointStepDoubles | internal/cvr/coordinator.go:62-102 | a state.checkpoint step is checkpointed first: four calls of that name at a limit of one |
| StepTheorems.ResultOrError | internal/orchestrator/engine.go:139-298 | a run ends with a successful result or an error, exactly one of them, never by exhaustion |
| StepTheorems.SuccessIsVerified | internal/orchestrator/engine.go:139-298 | a step reported successful was, in the last attempt of that very run, checkpointed if its intent asks, successful, and confirmed by the verification chosen for it; only a tree other than the default one can skip this |
| StepTheorems.SuccessReturns | internal/orchestrator/engine.go:185-216 | a successful step returns its primitive's own result exactly when no verification stands in for it, by the same name or because the primitive had none, or the stand-in gave the same |
| StepExamples.BorrowedResultHappens | internal/orchestrator/engine.go:531-536 | a step verified by its own primitive returns the verification's result |
| StepTheorems.ReachableActions | internal/cvr/coordinator.go:196-210 | of the default tree's four actions the coordinator reaches retry, rollback and escalate; abort is dead because no failure it reports is a duplicate |
| StepTheorems.AgainWithinLimit | internal/orchestrator/recovery.go:39-52 | no attempt at the limit asks for another |
| StepTheorems.CheckpointSurvives | internal/cvr/coordinator.go:62-102 | without a manifest, an attempt's checkpoint id still names the workspace the attempt began with after dispatch and verification |
| StepTheorems.RollbackRestores | internal/orchestrator/engine.go:421-434 | an attempt that ends rolled back has restored the workspace it began with |
| StepTheorems.MissingCheckpointIff | internal/orchestrator/engine.go:328-434 | exactly when a rollback is decided without a checkpoint, over intent, manifest and outcome; and exactly when that ends in the missing-checkpoint error or in the missing-target error of a declared restore |
| StepTheorems.CheckpointlessRollback | internal/orchestrator/engine.go:328-419 | what such a rollback does: it changes the world exactly when a primitive is declared, by that one call, and does nothing without error exactly when the strategy is not "primitive" |
| StepTheorems.CheckpointlessAttempt | internal/orchestrator/engine.go:233-291 | such an attempt is the last, leaves what the rollback left, and is reported rolled back exactly when the rollback gave no error |
| StepExamples.MissingCheckpointHappens | internal/orchestrator/engine.go:355-357 | a run that ends in the missing-checkpoint error |
| StepExamples.MissingTargetHappens | internal/orchestrator/engine.go:421-424 | a run of a reversible mutation with a declared restore that ends in the missing-target error |
| StepExamples.NothingUndoneHappens | internal/orchestrator/engine.go:390-419 | a run reported rolled back with no call made and nothing undone |
| StepExamples.DeclaredRollbackOnlyHappens | internal/orchestrator/engine.go:390-419 | a run whose rollback is the declared call alone |
| StepTheorems.RolledBackToStart | internal/orchestrator/engine.go:139-298 | without a manifest a rolled-back step has its starting workspace exactly when its last attempt began with it, and always if calls without a successful result leave the workspace alone and verification is answered |
| StepTheorems.PlainRollbackHasCheckpoint | internal/orchestrator/engine.go:595-650 | without a manifest every rollback decision has the checkpoint of its own attempt, so the missing-checkpoint error is unreachable |
| StepIntents.IntentByName | internal/orchestrator/engine.go:595-650 | the intent of every primitive, in every world: by name for the eight read, three check and five write prefixes and for state.restore, otherwise the manifest's, or the conservative default |
| StepIntents.FirstCall | internal/orchestrator/engine.go:595-650 | every attempt at a built-in write first calls state.checkpoint, whatever any manifest says; at a built-in read or check, or at state.restore, the primitive comes first; otherwise a checkpoint exactly when there is no manifest or its mutation is irreversible or high-risk |
| StepTheorems.DispatchOutcome | internal/cvr/coordinator.go:104-144 | the outcome of dispatch and verification by the two replies: timeout exactly on a deadline error, error on any other, failed when the primitive says so, and otherwise the verification's verdict |
| StepTheorems.AttemptEnds | internal/orchestrator/engine.go:212-294 | by the chosen action: when there is another attempt, the status and the escalation mark left, which error is returned |
| StepRecovery.FailedCheckpointEnds | internal/cvr/coordinator.go:62-102 | an attempt whose checkpoint fails makes that one call, with its label, is not rolled back, and is tried again exactly below the limit unless the failure is a duplicate or a depth error |
| StepRecovery.VerifiedBy | internal/orchestrator/engine.go:300-314 | the call that verifies a successful primitive: the declared primitive with the step's input, the declared command, none, or the default strategy's |
| StepRecovery.RollbackErrors | internal/orchestrator/engine.go:328-419 | each error of a rollback exactly by its cause; an irreversible or high-risk mutation without a declaration is refused |
| StepRecovery.DeclaredIsNotRetried | internal/orchestrator/engine.go:375-388 | a mutation whose app declares a rollback is never retried after it failed, erred or timed out; it ends rolled back or with an error |
| StepRecovery.PassedIsUndecided | internal/cvr/coordinator.go:104-144 | the tree is not asked about an attempt that passed or was never dispatched |
| StepRecovery.TreeIsAsked | internal/cvr/coordinator.go:128-142 | what the tree is asked about every other attempt: the cause by outcome and error, the attempt, the intent and always the limit 3 |
| StepRecovery.PayloadMeaning | internal/orchestrator/engine.go:436-473 | when there is a rollback payload and exactly which members it has; the outcome in it reads back |
| StepExamples.RolledBackKeepsEarlierAttempts | internal/orchestrator/engine.go:139-298 | a concrete run that ends rolled back with the damage of its first attempt |
| Transaction.AdvanceReaches | internal/runtime/runtime.go:112-196 | every outside call of the worker keeps the job on its way to the result it has as a whole |
| Transaction.FailedJobIsNoOp | internal/runtime/runtime.go:222-268 | with working restores a job leaves its effect or, exactly when undone, nothing; a policy denial of its own is not undone |
| Transaction.JobMeaning | internal/runtime/runtime.go:112-196 | a job in terms of its calls: unknown or not checkpointed, nothing; otherwise the primitive and then, if it gave no error, the schema's own registered verifier on what it left; the job is kept exactly when both succeed, and a failed one is undone exactly when it is a checkpointed write or exec job not denied by policy |
| Transaction.ClassifyIff | internal/runtime/runtime.go:222-251 | which kind of failure a reply is, both directions for each kind |
| Transaction.Runtime.Execute | internal/runtime/runtime.go:112-196 | the in-place transaction equals `RunJob` |
| SerialExecutor.StepKeeps | internal/runtime/runtime.go:304-328 | every step of every caller and of the worker keeps the invariant |
| SerialExecutor.SerialEquivalence | internal/runtime/runtime.go:304-328 | in every interleaving accepted jobs run once, one at a time; an idle worker has left the serial workspace in acceptance order; every answered caller has its own job's serial answer; a job was accepted exactly when its caller is past offering and was not refused |
| SerialExecutor.WorkerNeverBlocks | internal/runtime/runtime.go:304-328 | a busy worker can always take its next step, delivery included |
| SerialExecutor.OutcomeByEvent | internal/runtime/runtime.go:315-328 | in every run: callers are those that called, accepted jobs those accepted; a call has returned exactly when refused, abandoned or received, with that outcome |
| SerialExecutor.ReceiveAnswers | internal/runtime/runtime.go:322-324 | a caller that takes its result returns its own job's serial answer |
| SerialExecutor.WaitingIsServed | internal/runtime/runtime.go:304-328 | a waiting caller's job is in the worker's hand, or its result can be received |
| SerialExecutor.WaitingCanBeAnswered | internal/runtime/runtime.go:304-328 | from every reachable state at most six events of the worker and the caller return a waiting caller its serial answer |
| SerialExecutor.UndoneJobsVanish | internal/runtime/runtime.go:112-196 | the serial workspace is the one with undone and refused jobs left out |
| GoalCoordinator.GoalStore.InsertReview | internal/control/goal_store.go:772-795 | at most one undecided review per step, as the unique index enforces |
| GoalCoordinator.Coordinator.WalkSteps | internal/goal/coordinator.go:156-219 | the walk over the listed steps, write by write, equals `ExecuteSteps` |
| GoalCoordinator.Coordinator.RunVerifications | internal/goal/verification_runner.go:46-100 | the verification loop equals `RunChecks` |
| GoalCoordinator.Coordinator.Finish | internal/goal/coordinator.go:285-315 | completed or failed after verification |
| GoalCoordinator.Coordinator.ExecuteGoal | internal/goal/coordinator.go:59-94 | the Execute action on the stored goal |
| GoalCoordinator.Coordinator.ResumeGoal | internal/goal/coordinator.go:98-150 | the Resume action: only when paused, only when every review is decided, with exactly the approved steps |
| GoalCoordinator.Coordinator.ApproveReview | internal/rpc/goal_handlers.go:351-388 | the Approve action |
| GoalCoordinator.Coordinator.RejectReview | internal/rpc/goal_handlers.go:391-433 | the Reject action, which fails the goal even when repeated |
| GoalTheorems.ActKeeps | internal/goal/coordinator.go:59-219 | every action keeps the shape of steps and reviews |
| GoalTheorems.GoalShape | internal/goal/coordinator.go:59-219 | after any actions on a created goal: finished prefix, at most one failed or awaiting step, then pending; undecided reviews belong to the awaiting step, at most one; a paused goal's step has an undecided or approved review |
| GoalTheorems.CompletedMeansDone | internal/goal/coordinator.go:285-315 | a run completes a goal only if every step is finished and every verification passed |
| GoalTheorems.ChecksPass | internal/goal/verification_runner.go:46-125 | verifications run are exactly those not passed, in order: all on success, otherwise all up to the failing one, which is last and marked failed; later ones are untouched |
| GoalTheorems.ReexecutionReverifies | internal/goal/coordinator.go:156-163 | re-executing after a verification failure dispatches no step and reruns exactly the verifications not yet passed, up to a failure |
| GoalTheorems.WalkMeaning | internal/goal/coordinator.go:156-219 | the walk over the steps: each unfinished one was allowed, dispatched in its turn and passed up to one position, where the walk was over, gated with one undecided review, or broke; every other step is as before; the engine's answers are those of exactly these dispatches |
| GoalTheorems.RunEnds | internal/goal/coordinator.go:59-150 | a coordinator run ends paused exactly when its walk was gated, failed exactly when the walk broke or a verification run in it failed, completed exactly when all steps finished and all verifications passed; no other status |
| GoalTheorems.ActMeaning | internal/rpc/goal_handlers.go:404-428 | approve and reject row by row: refused when unknown or decided the other way, repeated otherwise, and every accepted reject fails the goal; when Execute and Resume run at all, and with which approvals |
| GoalTheorems.RoundAdvances | internal/goal/coordinator.go:98-150 | an approve-then-resume round strictly shrinks the unfinished steps and leaves one high-risk step fewer |
| GoalTheorems.DriveCompletes | internal/goal/coordinator.go:59-219 | with h high-risk steps and no failures: one Execute and h rounds, h pauses, then completed |
| GoalInterleaving.GateKept | internal/goal/coordinator.go:156-315 | every store access of every run, verification and completion included, of every decision, and of every reject handler's late status write keeps the gate invariant |
| GoalInterleaving.HighRiskNeedsApproval | internal/goal/coordinator.go:59-315 | in every interleaving, even of non-atomic decisions and of runs begun during or after verification, a high-risk step is dispatched only after a review of it was approved |
| GoalInterleaving.DecisionsWereMade | internal/goal/coordinator.go:59-315 | in every interleaving a dispatched high-risk step has an approving decision on a review of it among the events, and a reject handler can fail the goal only if some decision was a rejection |
| GoalInterleaving.CompletedOnlyAtTheEnd | internal/goal/coordinator.go:285-315 | a goal becomes completed exactly by a run that walked its whole list and has nothing to verify or has just had its verifications pass |
| GoalInterleaving.AtomicDecisionsStand | internal/control/goal_store.go:797-827 | with atomic decisions a decided review never changes |
| GoalInterleaving.OverrideIff | internal/control/goal_store.go:797-827 | an event overrides a decision exactly when it writes a verdict on a review already decided the other way |
| GoalInterleaving.OverlappingDecisionsFlip | internal/control/goal_store.go:797-827 | with overlapping decisions it can |
| GoalInterleaving.FlipIsReached | internal/control/goal_store.go:797-827 | every goal that begins with a high-risk step has a run, from its creation, in which this happens |
| GoalRefinement.UndisturbedRun | internal/goal/coordinator.go:59-219 | from any interleaved state, a run between whose store accesses nothing else happens ends with exactly the rows of the sequential Execute or Resume, and touches nothing else |
| GoalRefinement.UndisturbedDecision | internal/control/goal_store.go:797-827 | the same for a decision and the sequential Approve or Reject |
| GoalRefinement.LaunchAlone | internal/goal/coordinator.go:188-200 | a step is recorded as running when it is dispatched |
| McpFraming.DecimalRoundTrip | cmd/pb-mcp-bridge/main.go:139-140 | the printed length reads back |
| McpFraming.Find | cmd/pb-mcp-bridge/main.go:115-124 | the least position at which a substring occurs |
| McpFraming.FrameRoundTrip | cmd/pb-mcp-bridge/main.go:102-146 | a written frame followed by anything reads back whole and leaves exactly what follows, if and only if its payload has 1 to 64 MiB; otherwise the error and what is left |
| McpFraming.CutFrame | cmd/pb-mcp-bridge/main.go:102-135 | a frame cut short anywhere is an end-of-stream error, in the header or in the body by where the cut is |
| McpFraming.LengthLineAlwaysEnds | cmd/pb-mcp-bridge/main.go:121-124 | the malformed-line branch is unreachable |
| McpFraming.SpaceIsSkipped | cmd/pb-mcp-bridge/main.go:125-128 | every space character but newline, in UTF-8, is skipped before the number |
| McpFraming.SkippedIsSpace | cmd/pb-mcp-bridge/main.go:125-128 | nothing else is |
| McpFraming.ScanMeaning | cmd/pb-mcp-bridge/main.go:125-128 | spaces, an optional sign, digits and anything else read as that signed number if it has 64 bits; no digits or a newline read as none |
| McpFraming.AnyHeader | cmd/pb-mcp-bridge/main.go:100-135 | one read of any complete header, with further lines around the length line or with none, and of whatever follows it |
| McpFraming.StreamRoundTrip | cmd/pb-mcp-bridge/main.go:100-146 | a stream of frames cut after any number of bytes yields exactly the whole frames before the cut, then an end-of-stream error |
| McpFraming.StreamReadsBackIff | cmd/pb-mcp-bridge/main.go:100-146 | a written list reads back as that list with nothing left, exactly when every payload has 1 byte to 64 MiB |
| McpFraming.ReadMessage | cmd/pb-mcp-bridge/main.go:102-135 | the byte-by-byte reader gives the result and leaves the rest that `ReadFrame` specifies |
| McpFraming.WriteMessage | cmd/pb-mcp-bridge/main.go:138-146 | appends exactly one frame |
| McpSession.ReadsOwnAnswer | cmd/pb-mcp-bridge/main.go:237-240 | a reader that stops waiting has read exactly the answer on the wire, whole |
| McpSession.ActKeeps | cmd/pb-mcp-bridge/main.go:208-261 | every step of the call that holds the mutex keeps what is known of the wire |
| McpSession.StepKeeps | cmd/pb-mcp-bridge/main.go:192-261 | every event, cancellations, shutdowns and process exit included, keeps the invariant |
| McpSession.SuccessIsOwnAnswer | cmd/pb-mcp-bridge/main.go:208-261 | in every interleaving a successful call returns the server's answer to its own request |
| McpSession.FailureIsFinal | cmd/pb-mcp-bridge/main.go:242-261 | once a call left through the cancel branch, or failed other than in encoding its request, no later call succeeds |
| McpSession.DrainingNeverBlocks | cmd/pb-mcp-bridge/main.go:385-394 | a call waiting for its reader after cancellation can return or its reader can fail |
| McpSession.SentIsNotification | cmd/pb-mcp-bridge/main.go:263-277 | only notifications return without an answer, and they never return one |
| McpSession.TakenFrameIsSuccess | cmd/pb-mcp-bridge/main.go:255-260 | a call that takes a frame from its channel succeeds with the server's answer to its own request |
| McpSession.SelectingCanSucceed | cmd/pb-mcp-bridge/main.go:208-261 | from every reachable state in which a call is in its select and the session is open, some events end it with the answer to its own request |
| McpSession.NewCallCanSucceed | cmd/pb-mcp-bridge/main.go:208-261 | from every reachable state with the session open and the mutex free a new request can be written under the next id and return the answer to that id |
| McpSession.FirstCallCanSucceed | cmd/pb-mcp-bridge/main.go:208-261 | the first request of a new session can return the answer to request 1 |
| McpSession.NotificationIsWritten | cmd/pb-mcp-bridge/main.go:263-277 | a notification is written as one message and returns at once, with nothing else changed |
| McpSession.CancelledCanReturn | cmd/pb-mcp-bridge/main.go:242-248 | a cancelled call can return without the server, with both pipes closed, the session done and the mutex free |
| McpSession.CrashFreesCall | cmd/pb-mcp-bridge/main.go:198-261 | when the server exits, a call in its select can return unavailable |
| McpSession.ShutdownCloses | cmd/pb-mcp-bridge/main.go:385-398 | a close from outside ends with both pipes closed and the session done, and moves no call |
| McpSession.OutcomeByEvent | cmd/pb-mcp-bridge/main.go:208-261 | in every run each outcome has its own cause: cancelled exactly by cancellation, frame or read error exactly by taking the result, encoding and write errors exactly by those failures, unavailable only after seeing the session done |
| McpSession.SuccessIdsDiffer | cmd/pb-mcp-bridge/main.go:220 | no two successful calls have the same request id |
| KvData.MetadataRoundTrip | examples/kv_adapter/main.go:1334-1351 | metadata survives encoding with empty members left out |
| KvSpec.BatchMeaning | examples/kv_adapter/main.go:199-224 | a batch is stored exactly when its keys are non-blank, distinct and, in create mode, new; then each entry is found, other keys are as before, `created` is the growth; a rejected batch changes nothing |
| KvSpec.ValidIff | examples/kv_adapter/main.go:1299-1313 | a batch is valid exactly when no key is blank and no two keys are the same |
| KvSpec.ErrorIsFirst | examples/kv_adapter/main.go:1299-1313 | the error is that of the first invalid entry, the conflict that of the first key taken |
| KvSpec.SortedKeys | examples/kv_adapter/main.go:178-197 | the keys in strictly ascending order, each once |
| KvSpec.ListingMeaning | examples/kv_adapter/main.go:178-197 | a listing holds the entries with the prefix, in key order; one is missing only if the limit is used up by smaller keys |
| Order.LessIff | examples/kv_adapter/main.go:178-197 | the order of listings and reports is decided by the first difference, a prefix coming first |
| KvStores.ValidateEntries | examples/kv_adapter/main.go:1299-1313 | the keys of a batch or the error of its first invalid entry |
| KvStores.MemoryStore.List | examples/kv_adapter/main.go:178-197 | the entries with a prefix in key order, cut at the limit, whatever the map order |
| KvStores.MemoryStore.BatchUpsert | examples/kv_adapter/main.go:199-224 | check then write in place equals the batch specification |
| KvStores.MemoryStore.ReplaceAll | examples/kv_adapter/main.go:226-237 | replace or merge equals its specification |
| KvStores.InsertBatch | examples/kv_adapter/main.go:412-448 | a checked batch written row by row; the second conflict check is dead |
| KvStores.RunBatch | examples/kv_adapter/main.go:391-454 | the transaction equals the same batch specification and is dropped on rejection |
| KvStores.SqlStore.BatchUpsert | examples/kv_adapter/main.go:391-454 | the table's entries and the answer equal the same batch specification as the memory store's |
| KvStores.SqlStore.Create | examples/kv_adapter/main.go:319-343 | creates a free key, refuses a taken one |
| KvStores.SqlStore.ReplaceAll | examples/kv_adapter/main.go:456-490 | replace or merge equals its specification |
| KvStores.SqlStore.List | examples/kv_adapter/main.go:356-389 | the rows whose key is LIKE the prefix, decoded in key order, cut at the limit |
| KvSpec.ListingsAgreeIff | examples/kv_adapter/main.go:356-389 | both stores list the same for a prefix, in every store and for every limit, exactly when it has no wildcard and no ASCII letter; the SQL store never misses an entry |
| KvAdapter.SetEffect | examples/kv_adapter/main.go:907-963 | a successful set writes exactly the decoded entry under its key and reports what was there |
| KvAdapter.SetAcceptedIff | examples/kv_adapter/main.go:907-963 | a set is accepted exactly with a usable key, a known mode and, to create, a free key; which error otherwise; a refused one changes nothing |
| KvAdapter.DeleteMeaning | examples/kv_adapter/main.go:965-985 | a delete removes its key and nothing else and reports what was there |
| KvAdapter.BatchSetMeaning | examples/kv_adapter/main.go:1038-1079 | when a batch is stored, what it stores, what it counts, and which error it gives |
| KvAdapter.ImportMeaning | examples/kv_adapter/main.go:1134-1170 | when an import is accepted; the last entry of each key is found under it; other keys stay in merge mode and go in replace mode |
| KvAdapter.ExportedList | examples/kv_adapter/main.go:1081-1132 | an export as a list: every entry once, in key order |
| KvAdapter.ExportedMap | examples/kv_adapter/main.go:1081-1132 | an export as an object: every entry under its key |
| KvAdapter.UnservedRequest | examples/kv_adapter/main.go:907-914 | a request that does not decode or simulates an error is refused and changes nothing |
| KvAdapter.TestControl | examples/kv_adapter/main.go:1267-1285 | without a test control no error is simulated; with one, every writing handler that can decode the rest answers the code it names and changes nothing |
| KvAdapter.RequestsGoToHandlers | examples/kv_adapter/main.go:839-864 | each of the five writing methods changes the store by its own handler; every other request leaves it |
| KvAdapter.RouterRollbackUndoesSet | internal/sandbox/router.go:177-198 | kv.rollback_set with the router's envelope restores keys, values and metadata after every successful kv.set, exactly when the verification result decodes |
| KvAdapter.EngineRollbackUndoesSet | internal/orchestrator/engine.go:436-473 | the same with the step engine's envelope, for every verification outcome |
| KvAdapter.EngineRollbackIff | internal/orchestrator/engine.go:375-473 | the engine's rollback of any kv.set, successful, failed, never arrived or with its reply lost, leaves the content before it exactly when the reply is in the envelope, or no usable key is named, or the key was not there |
| KvAdapter.FailedCreateDeletes | examples/kv_adapter/main.go:1214-1251 | an attempt at a failed create, under the adapter's own manifest, that ends in kv.rollback_set, is reported rolled back, and deletes the entry the create collided with |
| KvAdapter.UndoRestores | examples/kv_adapter/main.go:1214-1255 | undoing a set by any envelope that carries its key and reply, a previous empty value with empty metadata included |
| KvAdapter.RollbackSetMeaning | examples/kv_adapter/main.go:1214-1255 | a rollback that decodes restores the previous value it carries or deletes the key, changes nothing else and says which |
| KvAdapter.VerdictDecodesIff | examples/kv_adapter/main.go:1214-1218 | a verification result decodes exactly when it is null or an object whose outcome and message are text, null or absent |
| KvAdapter.ReachableSound | examples/kv_adapter/main.go:839-864 | after any requests every key is non-blank and holds its own entry |
| KvAdapter.ExportThenImport | examples/kv_adapter/main.go:1081-1170 | exporting a reachable store with metadata and importing it in replace mode, into any store, is never rejected and gives the same keys, values and metadata |
| ManifestNormalizer.AcceptedIffFits | internal/primitive/app_manifest.go:248-359 | a verify or rollback declaration is accepted exactly when a complete one contradicts neither it nor the legacy endpoint, and that one is the result |
| ManifestNormalizer.NormalizeIdempotent | internal/primitive/app_manifest.go:190-230 | normalising a normalised manifest succeeds and changes nothing |
| ManifestNormalizer.SchemaStable | internal/primitive/app_manifest.go:361-438 | a normalised schema normalises to itself |
| ManifestNormalizer.SchemaMeaning | internal/primitive/app_manifest.go:361-438 | which schemas are accepted, plain or quoted, and what becomes of them |
| ManifestNormalizer.ReservedIff | internal/primitive/app_manifest.go:180-188 | a name is refused as reserved exactly when it begins with one of the seven prefixes |
| ManifestNormalizer.NormalizeMeaning | internal/primitive/app_manifest.go:190-230 | acceptance, the reason of each refusal in order, and every member of the result: app, name, description, socket and intent kept |
| ManifestNormalizer.EndpointsMatchDeclarations | internal/primitive/app_manifest.go:190-230 | the legacy endpoint is non-empty exactly when the strategy is "primitive", and then equals the declared primitive |
| SandboxRouter.Router.RoutePrimitive | internal/sandbox/router.go:76-161 | the socket calls in sequence equal `RouteApp`, with the app reported unavailable exactly when a connection failed |
| RouterTheorems.RouteMeaning | internal/sandbox/router.go:76-161 | success exactly when the call answered and its verification passed, the exact calls made, the cause of each error, and the app reported unavailable exactly when a call made found no connection |
| RouterTheorems.UnsendableIsRefused | internal/sandbox/router.go:76-161 | parameters that are not JSON fail the call with nothing verified or undone; all others reach the app as they are |
| RouterTheorems.VerifyViewsAgree | internal/sandbox/router.go:86-89 | router and engine verify a normalised primitive with the same call, absent parameters aside; what the engine does where the router verifies nothing |
| RouterTheorems.VerdictsAgreeIff | internal/sandbox/router.go:163-175 | given the same answer the two verdicts coincide exactly when it reads the same to both; a failed call fails both |
| RouterTheorems.VerdictsDiffer | internal/orchestrator/app_verify.go:112-137 | four answers on which they differ |
| RouterTheorems.RollbackViewsAgree | internal/orchestrator/engine.go:390-419 | the engine rolls back by the primitive the router's endpoint names, except that it restores the workspace for state.restore and refuses an input that is not an object; the empty-primitive error is unreachable |
| AppRegistry.RegistrationMeaning | internal/control/app_registry.go:25-134 | a registration succeeds exactly when the manifest normalises and the name is free or the app's own; its whole effect, with the app reactivated exactly when it had an unavailable row; a rejected one changes nothing and a conflict names the owner |
| AppRegistry.OwnerKept | internal/control/app_registry.go:136-147 | over any operations a name keeps its owner until that app unregisters it |
| AppRegistry.RegistryConsistent | internal/control/app_registry.go:197-258 | over any operations rows are normalised, lie under their names, and an app's rows share one availability |
| AppRegistry.RegisteredEndpointsMatch | internal/sandbox/router.go:86-104 | every manifest the registry can hand out has endpoints and declarations in agreement |
| AppRegistry.StaysUnavailable | internal/control/app_registry.go:197-258 | an app marked unavailable stays so until it registers again |
| AppRegistry.Registry.Register | internal/control/app_registry.go:25-134 | the scan in any row order, then update and upsert, equals its specification |
| AppRegistry.Registry.MarkUnavailable | internal/control/app_registry.go:197-258 | all rows of the app become unavailable; announced exactly when one was not |
| SymbolDiff.AddedParamIsFirst | internal/primitive/astdiff/astdiff.go:307-331 | the parameter reported is the first whose removal makes the type lists equal |
| SymbolDiff.AddedAtIff | internal/primitive/astdiff/astdiff.go:307-331 | a removal works exactly when the lists are one apart and every other parameter keeps its type in order |
| SymbolDiff.AddedParam | internal/primitive/astdiff/astdiff.go:307-331 | none exactly when no removal does |
| SymbolDiff.DetectAddedParam | internal/primitive/astdiff/astdiff.go:307-331 | the nested loops compute that parameter |
| SymbolDiff.PassesApart | internal/primitive/astdiff/astdiff.go:72-134 | different names give changes that differ in symbol or kind |
| SymbolDiff.KeysTellApart | internal/primitive/astdiff/astdiff.go:211-216 | keys of functions and methods are equal exactly for the same receiver and name |
| SymbolDiff.LastDeclarationWins | internal/primitive/astdiff/astdiff.go:146-185 | the last declaration of a key is the one indexed, with its qualified symbol |
| SymbolDiff.IndexedIsDeclared | internal/primitive/astdiff/astdiff.go:146-185 | nothing else is indexed |
| SymbolDiff.CallSitesCounted | internal/primitive/astdiff/astdiff.go:340-365 | the calls counted are all occurrences of the name, plain for functions and selected for methods |
| SymbolDiff.SignatureText | internal/primitive/astdiff/astdiff.go:296-305 | the text of a changed signature names the first added parameter, if there is one |
| SymbolDiff.ChangeSays | internal/primitive/astdiff/astdiff.go:72-134 | every reported change by kind: its symbol, its number of calls and its text |
| SymbolDiff.Diff | internal/primitive/astdiff/astdiff.go:48-144 | the four passes in any map order, sorted: strictly ascending by symbol and kind, exactly the changes |
| SymbolDiff.DiffDeterministic | internal/primitive/astdiff/astdiff.go:136-144 | only one sequence satisfies that, so map order does not matter |
| SymbolDiff.AddedIsRemovedBackwards | internal/primitive/astdiff/astdiff.go:98-120 | a type is added in one direction exactly when it is removed in the other |
| SymbolDiff.NoChangeIff | internal/primitive/astdiff/astdiff.go:48-134 | nothing is reported exactly when common functions keep their signatures, no method is new and the types are the same with the same structure; so the early return for equal bytes changes no answer |

## Left out

- HTTP, server-sent events, Unix sockets, Docker, Kubernetes, browser, shell, command line and web interface: plumbing; a dispatch is one call answered by a result or an error.
- Git behind checkpoints: a checkpoint answered with an id is taken to have stored the workspace, a restore answered without error to have put it back, as the engine itself assumes.
- JSON text, Go source and SQL parsing: messages carry documents, files carry declarations. Numbers are exact integers, so rounding of large numbers by intermediate decoders is not modelled, and member names match exactly, not regardless of case.
- Traces, logs, events, timestamps, manifests of checkpoints and random identifiers: they label records. Goal steps, reviews and verifications are identified by position, and store writes succeed.
- Context deadlines, except where an error reports one, and the depth limit of nested coordinator runs, whose depth is always 0 in the code modelled.
- StepEngine.RollbackPayload: leaves out the error text, the message and the hint of the envelope, which are always text.
- Cvr.Judge: keeps the outcome of a strategy, not its message or failed-test names.
- GoalInterleaving.HighRiskNeedsApproval: verification is one verdict; the rows of single verifications are not followed, and none of them bears on the gate.
- GoalCoordinator.Coordinator.RunVerifications: does not model what a single verification evaluates; its verdict is arbitrary.
- Replay of goals and goal bindings: no step of the review protocol.
- SerialExecutor.SerialEquivalence: does not model closing the executor while callers wait.
- McpSession.SuccessIsOwnAnswer: assumes a server that answers every request with one frame of 1 to 64 MiB in order and writes nothing else, as the bridge does; decoding the JSON inside a frame is left out.
- KvStores.SqlStore.List: database failures, such as a pattern too long for LIKE, are left out.
- KvAdapter: handlers are functions on the map that both stores refine; simulated delays and the size and digest members of replies are left out, and a nil label map or tag list is the same as an empty one.
- ManifestNormalizer.NormalizeIdempotent: the table of lower-case letters is a parameter, any that is idempotent and keeps spaces; the Unicode table itself is not spelled out.
- The in-memory app registry: it keeps a declared status and ignores the app on removal, so it does not refine the SQLite one.
- Router rollback and engine rollback of the same call at once: each layer is modelled alone and the two are compared on the same manifest and answer.
- Sandbox lifetimes and checkpoint manifest chains: they depend on drivers and links the code does not check.
