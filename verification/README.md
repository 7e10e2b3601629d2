# Verification of the composite-execution engine and its side cores

ASTRA turns a spoken or typed goal into plans, compiles each plan into a composite sequence of
desktop steps, executes the steps with verification, retries, compensation and bounded replanning,
and checkpoints the goal so that it can be suspended and resumed. This project models that engine
in Dafny 4.11 and proves what it guarantees for every plan and every behaviour of the world around
it, together with seven smaller cores of the same program: the grant store, the scroll verifier,
the observer/actuator lock, the visual damage region, the difference between desktop snapshots, the
provider fallback and the assembly of streamed tool calls.

`dafny verify dfyconfig.toml` checks everything.

## How it is built

The outside world is an oracle: a function from request numbers to observations. Every time the
engine looks at the cancel event, calls a tool, waits, verifies or asks the gate, it consumes the
next observation, which also says whether a deadline strikes there, the sequence's own or one of an
enclosing scope. A theorem that quantifies over worlds therefore covers every schedule of outcomes,
cancels and timeouts. Likewise a function tells for each write to the checkpoint store whether it
goes through.

Each loop of the program is a method whose loop invariants prove that it computes a function of its
inputs (`SequenceSpec`, `CompositeTask`, `Goals`, `Resumption`, `Rollback`, ...); objects that the
program updates in place (`PermissionEvaluator`, `GoalStore`, `GoalRuntime`, `ProviderManager`) are
classes whose methods state their whole new state through such functions. What the program promises
is then proved about the functions. Steps, sequences and tasks are values: the executor works on a
deep copy and hands it back.

| files | subject |
|---|---|
| `Domain`, `Recovery` | steps, sequences, verdicts, the world; the failure-to-strategy table |
| `SequenceSpec`, `ActionExecutor` | one sequence run: gate, attempts, compensation, deadlines |
| `SequenceFacts`, `SequenceTrace`, `SequenceOutcome` | truthful results; licensed effects and recorded compensations; exactly when a step succeeds and how a run ends |
| `Fates`, `RunReports` | the report of a sequence run, field by field, told from the plan and the answers with every constant written out |
| `Compiler` | compiling intents into steps with verifiers; replanning the remainder |
| `CompositeTask`, `CompositeTaskFacts`, `CompositeTaskTrace`, `CompositeTaskSafety`, `UndoEffects` | the replanning loop of one task: conservation, evidence, effects, compensations |
| `Schedules`, `TaskOutcomes`, `NetEffect`, `StopOnFailure` | when a task can succeed, when it is replanned, and what its success leaves undone, dropped or repeated |
| `UndoOutcome`, `WonSteps`, `LastRun`, `LostWork` | which compensations a run starts and records, and which steps it completes, told from the answers; what a task's last run leaves in memory; which completed work an abort does not see |
| `Goals`, `GoalRuntime`, `GoalFacts`, `GoalAccounts`, `Durability`, `CancelledGoal`, `GoalEnds`, `CompiledGoal` | running a goal: its checkpoints and event stream, its accounts, what becomes of a cancel, exactly how it ends, and the way from intents to GOAL_COMPLETED |
| `Resumption`, `ResumptionFacts`, `CutStands`, `LostGoal`, `StaleRow`, `RepeatedWork`, `Cycles` | suspending and resuming, once or any number of times: what is skipped, repeated or lost |
| `Rollback`, `TaskTales`, `AbortAfterRun` | aborting: what a goal run leaves of each task, what the abort calls again and what it cannot see |
| `Permissions`, `ScrollCheck`, `ScrollFacts`, `ScrollVerdict`, `ObserverProtocol`, `VisualDiff`, `WorldDiff`, `Providers`, `ToolCalls` | the side cores |

## What the code decides against its own claims

Where the code and the claim one would make about it disagree, the model follows the code, and a
lemma says exactly when the claim holds.

- The runtime passes no permission evaluator to the executor (`runtime.py:477-480`), so a task can
  succeed in some world exactly when every step of its plan needs no permission, or only that to
  read system information (`SucceedsExactlyWhenClear`, for all plans).
- A failed run compensates the steps it had finished and the replan runs only the remainder, so a
  task can succeed, every promised verdict TRUE, with its typed text undone (`TypedTextIsUndone`, for
  every compiled plan that types before its last intent). `SuccessStandsExactly` gives the condition
  on a plan under which success undoes nothing in any world, `CompiledSuccessStandsExactly` the one on
  the intents.
- The checkpoint goes on calling a compensated step verified, so resuming skips work that was undone;
  when a deadline strikes inside the compensation's own call, not even the record of the compensation
  tells (`ResumeSkipsUndoneStep`, both ways). `RunUndoesExactly` and `MemoryUndoneExactly` say from the
  answers which compensations were started and which of them were recorded, and `CutStandsExactly`
  when the skipped steps still stand: none of their compensations was even started.
- The result of a run that a task or goal deadline tears down is never written back
  (`action_executor.py:790`), so resuming can repeat steps it had completed and verified
  (`TornDownIsRepeated`). `ResumeRepeatsExactly` says of every step that the last run had completed,
  from the answers to that run, when the resumed goal can actuate it again: exactly when neither that
  step nor a later one was won with a verdict of TRUE; after a torn-down run, when none had been
  verified before. Over any number of suspensions a verified step is nonetheless final
  (`VerifiedIsFinal`), and no step is lost (`CyclesAreLossless`, `CompletedAfterCycles`).
- The session resumes a checkpoint without the goal (`session.py:112-116`). The checkpoint holds no
  steps, so unfinished work is lost unless there was none (`ResumeNeedsGoal`), and the resumed run
  reports the goal completed without having done anything (`LostGoalReportsSuccess`).
- A failing write to the store is logged and the run goes on (`runtime.py:138-140`), so an event can
  become visible before its checkpoint is durable; `DurableExactly` says when, event by event.
  Resuming such a stale row on the current goal drops nothing; it repeats exactly the tasks that were
  completed since the row was written and that the caller does not list (`StaleRowResumes`).
- Replanning loses or repeats steps when a plan does not stop on failure; `LosslessExactly` gives the
  exact condition on the plan.
- A cancel ends a run CANCELLED exactly when it is seen between two steps
  (`SequenceCancelledExactly`); seen inside a step's attempts, whichever attempt it is, it is
  reported as that step's failure (`CancelMidStepFails`, `CancelledStepFails`). Likewise a goal is
  reported cancelled exactly when its loop reaches a task with the cancel set
  (`GoalCancelledExactly`); set while a composite task works, it is reported as TASK_FAILED and
  GOAL_FAILED (`CancelMidTaskFails`). Either way the cancel is heeded (`CancelIsHeeded`).
- An abort looks at no record of what has run (`AbortCallsExactly`). After a goal run it calls a
  compensation a second time exactly when memory holds an accepted step whose compensation the task's
  last run had started (`AbortRepeatsExactly`); a deadline that strikes in that very call, or an
  enclosing one that tears the run down, leaves no record of the first time (`RecordTellsExactly`).
  Both kinds are reachable for every clear plan (`AbortUndoesTwice`).
- A replan drops the finished prefix from the sequence (`runtime.py:527-534`), so an abort neither
  undoes nor lists steps that the task's log shows as verified (`AbortMissesVerifiedStep`). Nor does it
  see a step whose verdict was TRUE although its actuation was not accepted
  (`action_executor.py:702-706`, `AbortMissesUnacceptedStep`). `WorkSeenExactly` gives the exact
  condition: nothing was completed before the last replan, and each answer that won a step for the last
  run also accepted its actuation; of a torn-down run nothing is written back, so there the step must
  have been accepted before.
- A tool whose error code reads "TIMEOUT" is taken for a sequence timeout (`runtime.py:506-508`):
  `RerunExactly` says when a run is followed by another, and `ToolCodeStopsReplanning` shows, for
  every clear plan, a failure that is repaired exactly when the code reads otherwise.
- The scroll verifier reports displacement on an unchanged screen when its threshold is zero or less
  (`ThresholdMatters`).
- The observation lock is reentrant: a thread that captures inside its own actuation scope, or enters
  a scope inside its own cycle, overlaps (`CaptureInsideScope`, `ScopeInsideCycle`). Keeping the two
  roles on distinct threads is exactly what prevents it (`RolesKeepApart`).
- A scope exit overwrites a longer pause that was asked for (`observer.py:140-141`);
  `PauseHonouredExactly` says when a requested pause is still in force, and `ScopeExitCutsPause` that
  it can be cut to nothing. The flag that announces an actuation is one for all threads: the end of one
  thread's scope or pause clears it while another thread still waits (`FlagExactly`).
- The snapshot difference never reports that a window left the maximised state, nor a state that
  passes to or from unknown, nor bounds that appear or vanish (`PatchRoundTrip` says exactly what it
  carries).
- A streamed tool call makes the whole stream fail exactly when a null stands in place of a line's data
  object, of its first choice, of the delta, of its list of calls, of a call or of a call's function
  object, or text follows for a field whose first fragment carried a null (`CallsArePerIndex`).

## Model

| member | source | states |
|---|---|---|
| ActionExecutor.MarkRemaining | backend/app/ai/orchestrator/action_executor.py:346-347 | every remaining step gets the status, the earlier ones are untouched |
| ActionExecutor.AttemptStep | backend/app/ai/orchestrator/action_executor.py:393-733 | the observe-act-verify-recover loop ends as its specification says under every schedule |
| ActionExecutor.CompensatePrefix | backend/app/ai/orchestrator/action_executor.py:748-759 | the compensations of the steps before the failed one run in descending order until a deadline strikes |
| ActionExecutor.ExpireOpenSteps | backend/app/ai/orchestrator/action_executor.py:778-785 | a timeout settles every open step and no other |
| ActionExecutor.RunStep | backend/app/ai/orchestrator/action_executor.py:340-769 | one turn: cancellation, gate, attempts, compensation, stop or go on |
| ActionExecutor.ExecuteSequence | backend/app/ai/orchestrator/action_executor.py:299-803 | the whole run computes the specification function, result and teardown included |
| SequenceFacts.ExecutionIsTruthful | backend/app/ai/orchestrator/action_executor.py:324-803 | for every schedule: status shape done\*, done\* FAILED SKIPPED\* or done\* CANCELLED+; counters equal status counts; SUCCESS iff every step is done; verified steps carry TRUE; the failed index points at the failed step; nothing is left open |
| RunReports.RunReportsExactly | backend/app/ai/orchestrator/action_executor.py:324-803 | for plans that stop on failure the plan and the answers alone tell the whole result: how many attempts each step gets, how the run ends, and of every step its status, accepted flag, verdict, error code and compensation record |
| SequenceTrace.ExecutionIsLicensed | backend/app/ai/orchestrator/action_executor.py:340-401 | every actuation belongs to a step of the plan, starts with the cancel event unset, and for a gated step after the gate let it in; at most max(1, r + 1) for each step are made, r being the retry limit |
| SequenceTrace.CompensateOrder | backend/app/ai/orchestrator/action_executor.py:748-759 | compensations are recorded by strictly descending index below the failed step, and none is left out unless a deadline strikes |
| SequenceTrace.CompensationsAreRecorded | backend/app/ai/orchestrator/action_executor.py:748-785 | a result records exactly the compensations that ran, each once, never one that had run before, only before the failed step |
| SequenceOutcome.StepSucceedsExactly | backend/app/ai/orchestrator/action_executor.py:393-733 | a step completes iff one of its attempts is answered by a completing observation after nothing but wasted ones; its actuations are exactly those attempts |
| WonSteps.RetriesExactly | backend/app/ai/orchestrator/action_executor.py:393-400 | a step that is let in and whose first attempts are wasted, as many as the plan allows retries, is completed by a completing answer behind them and lost if that one is wasted too |
| SequenceOutcome.SequenceSucceedsExactly | backend/app/ai/orchestrator/action_executor.py:324-776 | a run reports SUCCESS iff, step after step, nothing is cancelled, the gate lets the step in and an attempt wins in time |
| SequenceOutcome.SequenceCancelledExactly | backend/app/ai/orchestrator/action_executor.py:340-391 | a run reports CANCELLED iff, after nothing but steps that were let in and won, the cancel is seen at a loop head; PERMISSION_DENIED iff the gate keeps a step out there |
| SequenceOutcome.CancelMidStepFails | backend/app/ai/orchestrator/action_executor.py:400-401 | a run whose cancel is first seen inside a step's attempts, at any of them, ends FAILED or PARTIAL_FAILURE, or TIMEOUT when a deadline strikes while it compensates |
| SequenceOutcome.CancelledStepFails | backend/app/ai/orchestrator/action_executor.py:400-401 | the turn in which the cancel is seen stops the run at that very step, recorded as the failed one |
| Compiler.CompileTask | backend/app/ai/orchestrator/compiler.py:388-556 | the inner loop compiles exactly the intents of a task behind those already seen |
| Compiler.CompileGoal | backend/app/ai/orchestrator/compiler.py:364-569 | the nested loops produce one step per intent, in order, with the context carried across tasks |
| Compiler.CarryMeaning | backend/app/ai/orchestrator/compiler.py:382-545 | the carried payloads are the last text typed, the payload of the last copy and the last application opened, looked up backwards |
| Compiler.CompiledChecks | backend/app/ai/orchestrator/compiler.py:382-560 | every promised intent gets its own step that requires its verdict, and the check expects the promised content: a paste that of the latest preceding copy, which is its explicit content or the last text typed before it |
| Compiler.CompiledShape | backend/app/ai/orchestrator/compiler.py:382-569 | of every compiled step, told from its intent's fields: the application it is meant for, whether its verdict is required and what is checked, and its compensation: Ctrl+Z for typing, Escape for a right click, none else |
| Compiler.TypedMeaning | backend/app/ai/orchestrator/compiler.py:426-431 | the typed text is the first of text, query and value that is given, less the blanks at both ends |
| Compiler.ReplanRemainder | backend/app/ai/orchestrator/compiler.py:571-633 | the steps from the failed one on, cloned in order, behind a refocus step when the failure calls for one |
| Compiler.ReplanExactly | backend/app/ai/orchestrator/compiler.py:571-633 | what a replan holds, field by field: the steps from the failed one on under new names, one retry each, compensation as before, behind a refocus step iff the strategy looks at the screen and the failed step names an application |
| CompositeTask.ExecuteTask | backend/app/ai/orchestrator/runtime.py:471-536 | the task loop computes its specification and ends |
| CompositeTaskFacts.ReplanKeepsPieces | backend/app/ai/orchestrator/compiler.py:571-633 | replanning keeps identity, content and order of the remaining steps, and grows the plan by at most one |
| CompositeTaskFacts.ReplanningIsLossless | backend/app/ai/orchestrator/runtime.py:471-536 | for every world, the steps completed over all runs, refocus steps erased, followed by those still owed are exactly the original steps in order; a successful task owes none |
| CompositeTaskTrace.TaskSuccessIsTruthful | backend/app/ai/orchestrator/runtime.py:471-536 | after a success every original step has one completed entry, in order, with TRUE where it requires verification |
| CompositeTaskTrace.CompiledSuccessIsTruthful | backend/app/ai/orchestrator/compiler.py:382-560 | when a compiled plan's task succeeds, directly or after replans, every promised intent carries TRUE for the promised check |
| CompositeTaskTrace.WorkIsBounded | backend/app/ai/orchestrator/runtime.py:473-536 | at most three sequence runs and (max(1, r + 1) + 4) n + 6 forward actuations for n steps and retry limit r |
| CompositeTaskSafety.EffectsAreRightful | backend/app/ai/orchestrator/runtime.py:476-480 | over all replans, every forward actuation is for a step of the plan that needs no permission or an injected refocus step, and none starts once the cancel event is set |
| CompositeTaskSafety.CompensatedAtMostOnce | backend/app/ai/orchestrator/action_executor.py:748-759 | over a whole task each step's compensation is recorded at most once and only for a completed step |
| UndoEffects.NothingUndoneTwice | backend/app/ai/orchestrator/action_executor.py:748-759 | over a whole task, replans included, no two compensations carried out are of the same step, those cut short by a deadline included |
| TaskOutcomes.SucceedsExactlyWhenClear | backend/app/ai/orchestrator/runtime.py:477-480 | for every plan: some world lets its task succeed iff every step needs no permission, or only that to read system information |
| TaskOutcomes.ToolCodeStopsReplanning | backend/app/ai/orchestrator/runtime.py:506-508 | for every clear plan, in a world where one attempt fails, the task succeeds iff the tool's code does not read "TIMEOUT" |
| LastRun.TaskEndsExactly | backend/app/ai/orchestrator/runtime.py:489-536 | a task ends as its last run tells: torn down, succeeded, asking for the step that was kept out, cancelled, timed out, or failed for good, the last only behind the second replan |
| NetEffect.SuccessStandsExactly | backend/app/ai/orchestrator/action_executor.py:748-759 | in every world success means that no compensation was carried out, recorded or not, iff the plan may not compensate, holds a step that is never let in, or has nothing to compensate before its last step |
| NetEffect.TypedTextIsUndone | backend/app/ai/orchestrator/compiler.py:428-452 | for every compiled plan that types or right-clicks before its last intent and asks for no permission, some world lets the task succeed, every promise kept on record, with that step undone |
| NetEffect.CompiledSuccessStandsExactly | backend/app/ai/orchestrator/compiler.py:364-569 | for compiled plans the condition is that some intent is policy-bound or none but the last is compensated |
| StopOnFailure.RunsTwice | backend/app/ai/orchestrator/runtime.py:515-534 | without stop-on-failure a world exists in which a successful task completes a step twice |
| StopOnFailure.DropsFirst | backend/app/ai/orchestrator/runtime.py:515-534 | without stop-on-failure a world exists in which a successful task never completes its first step |
| StopOnFailure.LosslessExactly | backend/app/ai/orchestrator/runtime.py:471-536 | success is lossless in every world iff the plan stops on failure, has at most one step, has no step of its own, or holds a step that is never let in |
| GoalRuntimes.GoalStore.SaveCheckpoint | backend/app/database/goal_store.py:94-140 | a write that works changes exactly the goal's row, a failing one nothing, and raises |
| GoalRuntimes.GoalStore.MarkNonResumable | backend/app/database/goal_store.py:215-230 | a known goal's row becomes non-resumable unless the write fails, an unknown one changes nothing |
| GoalRuntimes.GoalRuntime.PersistCheckpoint | backend/app/ai/orchestrator/runtime.py:131-140 | the store, if there is one and the write works, holds the checkpoint of memory; a failing write changes nothing and is swallowed |
| GoalRuntimes.GoalRuntime.Fail | backend/app/ai/orchestrator/runtime.py:415-426 | a failed task fails the goal, is stored, then reported |
| GoalRuntimes.GoalRuntime.PerformTask | backend/app/ai/orchestrator/runtime.py:466-536 | a composite task leaves the steps, the action log and the clarification its loop computed |
| GoalRuntimes.GoalRuntime.Start | backend/app/ai/orchestrator/runtime.py:367-376 | the task is current and executing, stored, then reported |
| GoalRuntimes.GoalRuntime.TurnTask | backend/app/ai/orchestrator/runtime.py:355-436 | one turn of the task loop: skip, cancel or work |
| GoalRuntimes.GoalRuntime.EndTask | backend/app/ai/orchestrator/runtime.py:388-436 | completion, suspension, failure and teardown of a task |
| GoalRuntimes.GoalRuntime.Verify | backend/app/ai/orchestrator/runtime.py:438-457 | a goal completes only if every task did and the environment agrees |
| GoalRuntimes.GoalRuntime.Decline | backend/app/ai/orchestrator/runtime.py:316-346 | a waiting or invalid goal is reported and not executed |
| GoalRuntimes.GoalRuntime.ExecuteTasks | backend/app/ai/orchestrator/runtime.py:355-457 | the task loop computes its specification |
| GoalRuntimes.GoalRuntime.Run | backend/app/ai/orchestrator/runtime.py:310-464 | a run's memory, store, events and effects are those of the specification |
| GoalRuntimes.GoalRuntime.AbortAndRollback | backend/app/ai/orchestrator/runtime.py:252-308 | memory, stored checkpoint and report after an abort, and when the store's error is raised instead |
| GoalRuntimes.GoalRuntime.Resume | backend/app/ai/orchestrator/runtime.py:143-250 | a checkpoint is rejected iff its version is another, its goal ended, it is marked non-resumable or its task index is out of range; else it yields a runtime on the resumed memory |
| GoalFacts.RunStream | backend/app/ai/orchestrator/runtime.py:131-464 | the stream opens with GOAL_ACCEPTED and has one terminal event, its last; at every event a write of the checkpoint of memory was attempted and, if it worked, is what the store holds; a task starts only when all earlier ones are completed; GOAL_COMPLETED only when all are |
| Durability.DurableExactly | backend/app/ai/orchestrator/runtime.py:131-140 | at an event the store holds the checkpoint of memory iff the write before it worked or it held that very checkpoint already; after a failed write it holds what it held at the event before |
| GoalAccounts.GoalIsAccounted | backend/app/ai/orchestrator/runtime.py:310-464 | over a whole run every composite task conserves its steps, completed tasks are left alone, and every actuation is rightful |
| GoalAccounts.CompletedGoalIsTruthful | backend/app/ai/orchestrator/runtime.py:438-457 | a goal reported complete has completed every step of every unfinished composite task, in order, each entry backed by the verdict it needs |
| CompiledGoal.CompiledGoalIsReady | backend/app/ai/orchestrator/compiler.py:635-702 | a freshly compiled goal meets all that the theorems about goal runs ask: a coherent memory, and uniquely identified steps in every task |
| CompiledGoal.CompletedGoalKeepsPromises | backend/app/ai/orchestrator/runtime.py:438-457 | end to end: GOAL_COMPLETED implies, for every compiled task the goal still had to do, a completed entry per intent, in order, with TRUE for exactly the promised check |
| CancelledGoal.GoalCancelledExactly | backend/app/ai/orchestrator/runtime.py:355-365 | a goal's last event is GOAL_CANCELLED iff it is not refused and its loop reaches a task it does not skip with the cancel set |
| CancelledGoal.CancelMidTaskFails | backend/app/ai/orchestrator/runtime.py:384-426 | a lasting cancel first seen while a composite task is at work ends the run with TASK_FAILED and GOAL_FAILED, or GOAL_FAILED alone under the goal's own deadline |
| CancelledGoal.CancelIsHeeded | backend/app/ai/orchestrator/runtime.py:355-457 | no goal of composite tasks waits or completes over a lasting cancel, except one set only once its tasks are done |
| GoalEnds.DeclinedExactly | backend/app/ai/orchestrator/runtime.py:316-346 | a goal is declined iff it waits for an answer or failed validation; then two events are emitted and nothing else happens |
| GoalEnds.TurnExactly | backend/app/ai/orchestrator/runtime.py:355-436 | a turn on a task that is not skipped, told from the answers and the end of its run: its events in order, and the states, current task and completed tasks it leaves |
| GoalEnds.TurnAsks | backend/app/ai/orchestrator/runtime.py:355-500 | what a turn leaves asked of the user, told from the answers and from the end of the task's run |
| GoalEnds.GoalStopsExactly | backend/app/ai/orchestrator/runtime.py:355-436 | a goal whose loop does not get behind a task ends with the events and states of that turn |
| GoalEnds.GoalCompletedExactly | backend/app/ai/orchestrator/runtime.py:438-457 | the last event is GOAL_COMPLETED iff the goal is not declined, its loop gets behind its last task with all completed, no outer deadline strikes at the verification, and the answer there verifies the goal or no task has any work; a goal that gets there is else GOAL_FAILED |
| UndoOutcome.RunUndoesExactly | backend/app/ai/orchestrator/action_executor.py:748-785 | a run carries out a step's compensation iff the answers bring it to a failure behind that step, compensation is allowed, and no deadline strikes in the calls for the steps in between; the result records it iff none strikes in its own call either |
| LastRun.MemoryUndoneExactly | backend/app/ai/orchestrator/action_executor.py:748-790 | over a whole task with its replans, a step left in memory has been undone iff the last run starts its compensation; its record tells iff it did before or that run returns and records it |
| WonSteps.RunWinsExactly | backend/app/ai/orchestrator/action_executor.py:340-733 | a run completes a step iff step after step is let in and won up to it, told from the answers; the winning answer tells whether memory has the step as accepted and as verified |
| LostWork.WorkSeenExactly | backend/app/ai/orchestrator/runtime.py:268-295 | an abort sees every step a task completed iff none was completed before the last replan and each answer that won a step for the last run accepted its actuation; if that run was torn down, iff the steps it won had been accepted before |
| RepeatedWork.ResumeRepeatsExactly | backend/app/ai/orchestrator/runtime.py:204-239 | a goal run and its resumption: some world lets the resumed goal actuate a step again that the last run of its first unfinished task had completed iff neither that step nor a later one was won with TRUE; after a torn-down run, iff none from it on was verified before |
| RepeatedWork.TornDownIsRepeated | backend/app/ai/orchestrator/action_executor.py:789-790 | after a run that an enclosing deadline tears down, each step it had completed can be actuated again by the resumed goal, if the task started with nothing verified |
| Cycles.CycleKeepsStartable | backend/app/ai/orchestrator/runtime.py:143-250 | a resumed goal meets all that is asked of a fresh one: coherent, identities unique, nothing verified in an unfinished task |
| Cycles.CyclesAreLossless | backend/app/ai/orchestrator/runtime.py:143-250 | over any number of run and resume cycles, torn-down runs included, the steps a task's log has gained, repetitions counted once, followed by those still owed are the original steps in order |
| Cycles.CompletedAfterCycles | backend/app/ai/orchestrator/runtime.py:438-457 | GOAL_COMPLETED after any number of cycles: each unfinished composite task's log has gained, repetitions counted once, exactly the steps of its plan in order |
| Cycles.VerifiedIsFinal | backend/app/ai/orchestrator/runtime.py:204-239 | a step that one cycle completes and verifies is actuated in no later cycle |
| Resumption.CutTask | backend/app/ai/orchestrator/runtime.py:213-238 | the verified steps of the first unfinished task are cut off, the rest renumbered |
| Resumption.FindBoundary | backend/app/ai/orchestrator/runtime.py:204-241 | the walk over the task checkpoints finds the continuation boundary |
| ResumptionFacts.CheckpointTellsTask | backend/app/ai/orchestrator/runtime.py:57-129 | a task's checkpoint lists as completed exactly the steps that were accepted or completed, as verified those completed with TRUE |
| ResumptionFacts.ResumeExactly | backend/app/ai/orchestrator/runtime.py:143-250 | resuming from any checkpoint, on any goal and context: the tasks before the first one not completed and verified are listed and completed, that one is cut if the goal has it, and the question asked is the checkpoint's or else the context's |
| ResumptionFacts.CutExactly | backend/app/ai/orchestrator/runtime.py:213-238 | for any numbers in a task checkpoint: the steps above the highest verified one stay, renumbered and pending; if there is none, all stay, and the boundary tells why |
| ResumptionFacts.CutIsSafe | backend/app/ai/orchestrator/runtime.py:213-238 | the cut removes every verified step and no unfinished one, and never takes the all-verified branch |
| ResumptionFacts.ResumeContinues | backend/app/ai/orchestrator/runtime.py:143-250 | from every checkpoint of a coherent goal, with any context passed along: completed tasks stay, the first unfinished one loses its verified prefix and nothing else, later ones are untouched |
| ResumptionFacts.ResumeClassifies | backend/app/ai/orchestrator/runtime.py:199-239 | re-verification is asked for iff some step was actuated and none verified; retry is called safe iff none was actuated |
| ResumptionFacts.ResumedRunNeverRepeats | backend/app/ai/orchestrator/runtime.py:204-239 | no actuation of a resumed run is for a step recorded as verified or of a completed task |
| ResumptionFacts.EveryCheckpointResumes | backend/app/ai/orchestrator/runtime.py:57-129 | every checkpoint a run writes before an event resumes with these guarantees, unless the goal had ended |
| CutStands.CutStandsExactly | backend/app/ai/orchestrator/runtime.py:213-238 | after a task that did not succeed, whichever way, none of the steps that resuming skips has had its compensation carried out, on record or not, iff the answers to the task's last run say so: no failure, compensation off, nothing to compensate among the skipped steps before the failed one, or a deadline in the calls for the steps behind them |
| CutStands.ResumeSkipsUndoneStep | backend/app/ai/orchestrator/runtime.py:213-238 | for every clear plan that can undo a step before its last, some world fails the task with that step verified and undone, and resuming skips it; in another the same happens and the compensation's record does not tell |
| StaleRow.StaleRowResumes | backend/app/ai/orchestrator/runtime.py:131-250 | when later writes failed, the row at an event is that of the last event whose write worked; resuming it on the current goal cuts off just the verified steps if the tasks are as the row has them, and otherwise cuts off nothing and runs again exactly the tasks completed since that the caller does not list |
| LostGoal.ResumeNeedsGoal | backend/app/ai/orchestrator/runtime.py:162-177 | resuming keeps the unfinished steps iff the goal is passed along or no unfinished task had a step |
| LostGoal.LostGoalReportsSuccess | backend/app/ai/orchestrator/session.py:112-116 | resumed without the goal, a calm run performs no actuation and reports completion |
| Rollback.RollbackSteps | backend/app/ai/orchestrator/runtime.py:270-295 | steps are visited in reverse and each compensation's outcome is written back |
| Rollback.RollbackTasks | backend/app/ai/orchestrator/runtime.py:268-295 | tasks are visited in reverse |
| Rollback.RollbackAccounts | backend/app/ai/orchestrator/runtime.py:252-308 | of the accepted steps in memory, last first, exactly those with a compensation whose call does not raise are listed as executed, each with the success of its own answer, the others as unresolved; the stored checkpoint stays resumable iff marking it failed and it was resumable or just saved, and then the error is raised |
| Rollback.AbortedMemory | backend/app/ai/orchestrator/runtime.py:268-286 | a step in memory is changed iff it was accepted and its compensation's call, behind those of all later steps and tasks, does not raise; then its record tells whether the call succeeded |
| Rollback.AbortIsFinal | backend/app/ai/orchestrator/runtime.py:287-308 | unless the store's error is raised, the row an abort leaves is never resumed; it is raised iff there is a row to mark and that write fails |
| Rollback.AbortCallsExactly | backend/app/ai/orchestrator/runtime.py:268-295 | an abort calls the compensations of exactly the accepted steps in memory that have one |
| AbortAfterRun.AbortRepeatsExactly | backend/app/ai/orchestrator/runtime.py:252-308 | a goal run followed by an abort calls some compensation a second time iff memory holds an accepted step whose compensation the task's last run had started, recorded or cut short |
| AbortAfterRun.RecordTellsExactly | backend/app/ai/orchestrator/action_executor.py:751-790 | of such a step the record tells iff no enclosing deadline tore the run down and none struck in the very call of the compensation |
| AbortAfterRun.AbortUndoesTwice | backend/app/ai/orchestrator/runtime.py:252-295 | for every goal of one clear task that can undo a step before its last, some run fails after undoing it and the abort undoes it again, with the first time on record or, in another world, without |
| AbortAfterRun.AbortMissesUnacceptedStep | backend/app/ai/orchestrator/action_executor.py:702-706 | for every such goal and step some run with no replan fails with that step verified in memory and log, not accepted, and the abort neither undoes nor lists it |
| AbortAfterRun.AbortMissesVerifiedStep | backend/app/ai/orchestrator/runtime.py:515-534 | for every goal of one clear task and every step before some later one, some run fails with that step verified in the task's log and the abort neither undoes nor lists it |
| Permissions.PermissionEvaluator.AddGrant | backend/app/core/security/evaluator.py:19-43 | a granted, possibly expiring entry is appended |
| Permissions.PermissionEvaluator.Revoke | backend/app/core/security/evaluator.py:45-52 | exactly the named grant is revoked |
| Permissions.PermissionEvaluator.IsAuthorized | backend/app/core/security/evaluator.py:60-102 | the scan's answer and the grants it marks expired on the way |
| Permissions.ScanRefines | backend/app/core/security/evaluator.py:60-80 | a scan with lazy marking finds the first grant that authorizes under eager expiry, and keeps the two stores in step |
| Permissions.LazyExpiryIsExact | backend/app/core/security/evaluator.py:19-102 | over any history under a monotone clock all answers equal those of eager expiry, and GRANTED is answered iff some unrevoked, unexpired grant matches |
| Permissions.AnsweredExactly | backend/app/core/security/evaluator.py:19-102 | told from the history alone: GRANTED iff some grant for the same capability and the same or any resource and task has not run out and was not revoked since, and then by the first such; else the scope's default |
| Permissions.DeadGrantsStayDead | backend/app/core/security/evaluator.py:45-80 | a grant once revoked or expired never authorizes again |
| ScrollCheck.FindBest | backend/app/ai/orchestrator/verification.py:760-776 | the candidate the scan settles for |
| ScrollCheck.MatchItems | backend/app/ai/orchestrator/verification.py:755-788 | the greedy matching and its displacements |
| ScrollCheck.CheckScroll | backend/app/ai/orchestrator/verification.py:660-870 | the verdict on two observations, stale and missing ones included |
| ScrollFacts.UnchangedScreenIsNeverTrue | backend/app/ai/orchestrator/verification.py:736-857 | on a permutation of the same detections, duplicates included, every item is matched with a zero shift and the verdict is never TRUE |
| ScrollFacts.ThresholdMatters | backend/app/ai/orchestrator/verification.py:790-815 | on any unchanged, fresh, non-empty screen displacement is reported iff the threshold is zero or less |
| ScrollFacts.UniformScrollIsTrue | backend/app/ai/orchestrator/verification.py:736-857 | with distinct labels and no target bounds a uniform vertical shift of at least the threshold is TRUE |
| ScrollFacts.TrueIsBacked | backend/app/ai/orchestrator/verification.py:736-857 | TRUE is backed by a label that moved far enough without changing columns, or by changed labels on a screen of at least three |
| ScrollVerdict.ScrollJudgedExactly | backend/app/ai/orchestrator/verification.py:660-870 | the verdict, exactly: each label seen after, longest first, is matched to the cheapest free one seen before that did not jump, and the displacements within 150 sideways, or labels that came or went, decide |
| ScrollVerdict.SortedExactly | backend/app/ai/orchestrator/verification.py:755-757 | the labels are sorted stably, longest first |
| ScrollVerdict.ExtractExactly | backend/app/ai/orchestrator/verification.py:705-733 | the detections with a label and within 15 of the bounds are kept, in order |
| ObserverProtocol.ReachableOk | backend/app/environment/visual/observer.py:118-270 | the lock and timing invariant holds in every reachable state |
| ObserverProtocol.MutualExclusion | backend/app/environment/visual/observer.py:118-270 | in every interleaving no thread observes while another actuates, and acquisitions and releases balance |
| ObserverProtocol.BackgroundCyclesSettle | backend/app/environment/visual/observer.py:236-270 | no background cycle starts before the latest scope exit plus its settle delay |
| ObserverProtocol.NoOverlap | backend/app/environment/visual/observer.py:118-270 | with captures and scopes on distinct threads no cycle overlaps an actuation |
| ObserverProtocol.CaptureInsideScope | backend/app/environment/visual/observer.py:221-234 | in every reachable state, a capture asked for inside the thread's own scope cannot wait or time out, and overlaps at its next step |
| ObserverProtocol.ScopeInsideCycle | backend/app/environment/visual/observer.py:119-134 | in every reachable state, so does a scope entered inside the thread's own cycle |
| ObserverProtocol.RolesKeepApart | backend/app/environment/visual/observer.py:118-270 | a run keeps captures and scopes on distinct threads iff no state of it overlaps or is one step from overlapping |
| ObserverProtocol.PauseHonouredExactly | backend/app/environment/visual/observer.py:136-154 | a requested pause is in force at a later step iff some request for as much since then was not followed by a scope exit asking for less |
| ObserverProtocol.PauseHoldsWorkers | backend/app/environment/visual/observer.py:236-262 | while it is in force no worker passes its second check before the requested moment |
| ObserverProtocol.ScopeExitCutsPause | backend/app/environment/visual/observer.py:136-142 | from any state at rest, however long a pause is to last, one scope with no settle delay lets a worker's cycle start at once |
| ObserverProtocol.FlagExactly | backend/app/environment/visual/observer.py:118-166 | the flag is set iff an actuation was announced and no thread has withdrawn one since |
| ObserverProtocol.ChecksExactly | backend/app/environment/visual/observer.py:236-262 | a worker goes for the lock, and then starts a cycle, iff the flag is clear and no pause is in force |
| ObserverProtocol.PauseWaitsExactly | backend/app/environment/visual/observer.py:144-165 | a pause asked to wait ends after it held the lock with no other thread in a cycle or scope, or timed out while another held it |
| VisualDiff.AxisIsExact | backend/app/environment/visual/diff.py:117-138 | along one side the extent is positive, inside the frame, covers every hit block and begins and ends with one |
| VisualDiff.DamageIsExact | backend/app/environment/visual/diff.py:92-138 | the damage region lies in the frame, covers the clipped block of every changed sample and is tight on all four sides |
| VisualDiff.DiffIsSymmetric | backend/app/environment/visual/diff.py:62-138 | swapping the frames changes nothing; a region is reported iff enough samples changed and some did |
| VisualDiff.DiffExactly | backend/app/environment/visual/diff.py:62-150 | the report, exactly: the share of samples whose brightness differs by more than the noise, a change iff it reaches the threshold or a refresh is forced, and which region is told |
| VisualDiff.SamplesExactly | backend/app/environment/visual/diff.py:92-94 | every stride-th row or column is sampled and no other |
| WorldDiff.ComputeDiff | backend/app/environment/awareness/diff.py:36-163 | the loops over applications, windows and the foreground produce the specified changes in order |
| WorldDiff.AddChanged | backend/app/environment/awareness/diff.py:83-136 | the changes of the windows that exist now |
| WorldDiff.AddClosed | backend/app/environment/awareness/diff.py:138-145 | the windows that are gone |
| WorldDiff.AddPresent | backend/app/environment/awareness/diff.py:44-66 | the changes of the applications listed now |
| WorldDiff.AddStopped | backend/app/environment/awareness/diff.py:68-77 | the applications that stopped |
| WorldDiff.PatchedDesk | backend/app/environment/awareness/diff.py:79-145 | patching any picture of the previous snapshot's windows leaves exactly the current windows, each as its own changes make it |
| WorldDiff.PatchRoundTrip | backend/app/environment/awareness/diff.py:79-145 | handles and titles are the current ones; place and size iff both or neither snapshot has them; minimised and maximised states exactly when the changes can tell |
| WorldDiff.ChainRoundTrip | backend/app/environment/awareness/diff.py:36-163 | composed along any chain of snapshots the differences give the last one's handles, titles and, where always present, bounds |
| WorldDiff.SelfDiffIsEmpty | backend/app/environment/awareness/diff.py:36-163 | a snapshot does not differ from itself |
| WorldDiff.ReportedExactly | backend/app/environment/awareness/diff.py:36-163 | each kind of change is reported iff it happened, told from the last entry each list has for a window or application |
| WorldDiff.ReportIsSorted | backend/app/environment/awareness/diff.py:36-163 | applications come before windows and the foreground last, those present before those gone |
| Providers.ConfiguredOrder | backend/app/ai/providers/manager.py:52-65 | primary then fallbacks, later repetitions dropped |
| Providers.DedupMeaning | backend/app/ai/providers/manager.py:60-65 | the order has every candidate name exactly once |
| Providers.DedupOrder | backend/app/ai/providers/manager.py:60-65 | names keep the order of their first appearance |
| Providers.Configure | backend/app/ai/providers/manager.py:46-90 | the configured manager has the order without repetitions and a fresh record for exactly the providers that load; there is none when none loads |
| Providers.ProviderManager.GetEligibleProviders | backend/app/ai/providers/manager.py:92-111 | the eligible names and the records made available again |
| Providers.ProviderManager.MarkUnhealthy | backend/app/ai/providers/manager.py:113-129 | exactly one record changes and starts its cooldown |
| Providers.ProviderManager.Generate | backend/app/ai/providers/manager.py:131-172 | records, calls and outcome of one request |
| Providers.ProviderManager.CallInTurn | backend/app/ai/providers/manager.py:140-172 | providers are called one by one until one does not fail in a retryable way |
| Providers.SiftIsWilling | backend/app/ai/providers/manager.py:92-111 | the lazily updated records select exactly the loaded providers with no retryable failure within the last cooldown |
| Providers.EveryRequestIsAnswered | backend/app/ai/providers/manager.py:92-172 | over any history a request calls those providers in configured order, each at most once; all but the last call failed in a retryable way; the last one decides |
| Providers.CooldownIsKept | backend/app/ai/providers/manager.py:92-129 | over any history no provider is called within the cooldown after any of its retryable failures |
| Providers.FailuresAreCounted | backend/app/ai/providers/manager.py:113-120 | over any history a provider's record counts its retryable failures, and its failure time lies within the last one |
| ToolCalls.TakeFragment | backend/app/ai/runtimes/openai.py:219-234 | one fragment enters the buffer, or appending to a null or reading a null function object fails |
| ToolCalls.FillBuffer | backend/app/ai/runtimes/openai.py:198-251 | the buffer after all fragments up to the end marker, or failure at a line with a null in place of its data object, first choice, delta, list of calls or call |
| ToolCalls.Assemble | backend/app/ai/runtimes/openai.py:263-281 | one call per buffered index, by ascending index, and no list when there is none |
| ToolCalls.CallsArePerIndex | backend/app/ai/runtimes/openai.py:198-281 | the stream fails iff it delivers a null data object, first choice, delta, list of calls, call or function object, or a field first given as null gets text later; otherwise each call's fields are the in-order concatenation of that index's fragments |
| ToolCalls.InterleavingIsIrrelevant | backend/app/ai/runtimes/openai.py:219-281 | only the order of the fragments of each index matters |
| ToolCalls.ListIsUnique | backend/app/ai/runtimes/openai.py:263-281 | the reported list is determined by the buffer |

## Left out

- Coordinate grounding, focus and clipboard capture inside the executor: they fill tool arguments and
  verifier arguments; their awaits are folded into the deadline strikes of the attempt, which covers
  more schedules than the code has.
- Tool execution, argument normalisation and exceptions outside the paths above: one call is one
  observation of the world.
- The bodies of the verifiers other than `verify_scroll`: a verifier answers any verdict.
- The plain-intent loop of a task (browser I/O): one answer of the world; the model claims nothing
  about what it verified. In the code an UNKNOWN result counts as verified there, because the
  enumeration value is truthy.
- The environment check of the final goal verification: a nondeterministic answer, guarded by the
  completion of all tasks.
- Suspension reasons, step-status maps, environment snapshots, identifiers, durations and log
  messages of checkpoints and events.
- Aliasing between the goal, its tasks and their sequences: they are values, and the runtime object
  holds the only reference to them.
- Intents are given with hotkeys split and in lower case; whether an intent is consequential is a
  flag; the policy that decides it is not part of this model.
- ActionExecutor.ExecuteSequence: the verifier arguments that the executor writes into a step are
  not part of the returned steps, because later decisions read them only through a verdict, and a
  verdict is whatever the world answers.
- GoalRuntimes.GoalRuntime.PerformTask: an exception escaping a task is not modelled; deadlines are.
- Permissions.PermissionEvaluator.AddGrant: a grant is identified by its position instead of a random
  identifier.
- ScrollCheck.CheckScroll: label normalisation is a parameter, coordinates are real numbers, and the
  evidence text is left out.
- VisualDiff.DiffIsSymmetric: the change ratio is an exact quotient, frames have one or three
  channels, and the perceptual hashes are left out.
- WorldDiff.ComputeDiff: timestamps and the entity-type labels of the changes are left out.
- Providers.ProviderManager.Generate: requests follow one another; concurrent requests may call a
  provider that another request has just marked.
- Providers.Configure: names are given stripped and in lower case.
- The streaming variant of the provider request differs only in that an empty stream ends it without
  an answer.
- ToolCalls.Assemble: indices are integers and the other members strings or null; parsing the argument
  text as JSON, whose failure is reported inside the call, is left out.
- Cycles.CyclesAreLossless: each cycle resumes the goal as its run left it in memory; a row behind
  memory is the subject of `StaleRowResumes`, for one resumption.
- StaleRow.StaleRowResumes: a row of before the run, left when none of its writes worked, is not
  covered.
- The session, the API, voice, the frontend, the memory store and application discovery.
