/** What every run of a goal guarantees: its event stream, its checkpoints, its tasks. */
module GoalFacts {
  import opened Domain
  import opened Recovery
  import opened SequenceSpec
  import opened SequenceFacts
  import opened CompositeTask
  import opened CompositeTaskFacts
  import opened Goals
  import Compiler

  // ---- well-formed memory

  /** Done up to some step and not done from there. */
  ghost predicate DoneSplit(steps: seq<Step>) {
    exists k: nat :: k <= |steps| && SplitAt(steps, k)
  }

  ghost predicate SplitAt(steps: seq<Step>, k: nat) {
    k <= |steps| && forall j :: 0 <= j < |steps| ==> (Done(steps[j]) <==> j < k)
  }

  ghost predicate PlanOk(plan: Sequence) {
    && plan.stopOnFailure
    && (forall j :: 0 <= j < |plan.steps| ==>
          plan.steps[j].index == j && (IsVerified(plan.steps[j]) ==> SaysTrue(plan.steps[j].verdict)))
    && DoneSplit(plan.steps)
  }

  /** The last step is not verified. */
  predicate Unfinished(steps: seq<Step>) { |steps| > 0 ==> !IsVerified(steps[|steps| - 1]) }

  ghost predicate TaskOk(t: Task) {
    t.work.Composite? ==> PlanOk(t.work.plan) && (t.state != TaskCompleted ==> Unfinished(t.work.plan.steps))
  }

  /** No step of the task was verified yet. */
  predicate Untried(t: Task) { forall s :: s in StepsOf(t) ==> !IsVerified(s) }

  /** The tasks before `k` are completed and listed as such, those from `k` on are not, and
      those after `k` have not been tried. */
  ghost predicate Frontier(tasks: seq<Task>, ids: seq<string>, k: nat) {
    && k <= |tasks|
    && (forall j :: 0 <= j < k ==> tasks[j].state == TaskCompleted && tasks[j].id in ids)
    && (forall j :: k <= j < |tasks| ==> tasks[j].state != TaskCompleted)
    && (forall j :: k < j < |tasks| ==> Untried(tasks[j]))
  }

  ghost predicate Coherent(tasks: seq<Task>, ids: seq<string>, current: nat) {
    && (exists k: nat :: Frontier(tasks, ids, k))
    && (forall i :: 0 <= i < |tasks| ==> TaskOk(tasks[i]))
    && (|tasks| > 0 ==> current < |tasks|)
  }

  /** Tasks are completed in order, and every plan is coherent. */
  ghost predicate MemoryOk(m: Memory) { Coherent(m.tasks, m.completedIds, m.current) }

  // ---- the plan a task leaves behind

  ghost predicate PlanLeft(run: TaskRun) {
    && PlanOk(run.state.plan)
    && (run.end != TaskSucceeded ==> Unfinished(run.state.plan.steps))
  }

  lemma ResultPlan(plan: Sequence, world: World, tick: nat)
    requires plan.stopOnFailure
    ensures var out := Execute(plan, NoEvaluator, world, tick);
            out.Returned? ==>
              && PlanOk(plan.(steps := out.result.steps))
              && (out.result.status != Success ==> Unfinished(out.result.steps))
  {
    ExecutionIsTruthful(plan, NoEvaluator, world, tick);
    var out := Execute(plan, NoEvaluator, world, tick);
    if out.Returned? {
      var k := DoneUpTo(out.result, plan);
      assert SplitAt(out.result.steps, k);
    }
  }

  lemma ReplannedPlan(plan: Sequence, failed: nat)
    requires failed < |plan.steps| && forall j :: failed <= j < |plan.steps| ==> !Done(plan.steps[j])
    ensures var repaired := Compiler.Replan(plan, failed, Some(InspectState));
            repaired.Some? && PlanOk(repaired.value) && Unfinished(repaired.value.steps)
  {
    var steps := Compiler.Replan(plan, failed, Some(InspectState)).value.steps;
    var rest := plan.steps[failed..];
    var head := |steps| - |rest|;
    forall j | 0 <= j < |steps| ensures steps[j].index == j && !Done(steps[j]) {
      if j >= head {
        assert steps[j] == Compiler.Clone(rest[j - head], j);
      }
    }
    assert SplitAt(steps, 0);
  }

  lemma {:induction false} LoopPlan(s: TaskState, world: World)
    requires s.replans <= MaxReplans && PlanOk(s.plan) && Unfinished(s.plan.steps)
    ensures PlanLeft(Loop(s, world))
    decreases MaxReplans - s.replans
  {
    ResultPlan(s.plan, world, s.tick);
    var k := RunSplit(s.plan, world, s.tick);
    var out := Execute(s.plan, NoEvaluator, world, s.tick);
    if out.Returned? {
      ReactShape(s, out.result, world);
      var reaction := React(s, out.result, world);
      if reaction.Rerun? {
        ReplannedPlan(Logged(s, out.result).plan, k);
        LoopPlan(reaction.state, world);
      }
    }
  }

  lemma TaskPlan(plan: Sequence, world: World, tick: nat)
    requires PlanOk(plan) && Unfinished(plan.steps)
    ensures PlanLeft(RunTask(plan, world, tick))
  {
    RunTaskIsLoop(plan, world, tick);
    LoopPlan(Begin(plan, tick), world);
  }

  // ---- memory through a run

  ghost predicate AtWork(tasks: seq<Task>, ids: seq<string>, current: nat, i: nat) {
    && Frontier(tasks, ids, i) && i < |tasks| && current == i
    && (forall j :: 0 <= j < |tasks| && j != i ==> TaskOk(tasks[j]))
  }

  /** Task `i` is being worked on. */
  ghost predicate Working(m: Memory, i: nat) { AtWork(m.tasks, m.completedIds, m.current, i) }

  /** The loop has reached task `i`. */
  ghost predicate Reached(m: Memory, i: nat) {
    && MemoryOk(m) && i <= |m.tasks|
    && forall j :: 0 <= j < i ==> m.tasks[j].state == TaskCompleted
  }

  lemma WorkingOk(m: Memory, i: nat)
    requires Working(m, i) && TaskOk(m.tasks[i])
    ensures MemoryOk(m)
  {}

  // ---- the event stream

  /** What an event tells is what memory says when it becomes visible. */
  ghost predicate Tells(event: Event, m: Memory) {
    match event
    case TaskStartedEvent(k) =>
      && k < |m.tasks| && m.current == k && m.tasks[k].state == TaskExecuting
      && forall j :: 0 <= j < k ==> m.tasks[j].state == TaskCompleted
    case TaskCompletedEvent(k) => k < |m.tasks| && forall j :: 0 <= j <= k ==> m.tasks[j].state == TaskCompleted
    case TaskFailedEvent(k) => k < |m.tasks| && m.tasks[k].state == TaskFailed
    case GoalAcceptedEvent => true
    case WaitingEvent => m.goalState == GoalWaiting
    case GoalVerifyingEvent => m.goalState == GoalVerifying
    case GoalCompletedEvent => m.goalState == GoalCompleted && m.isComplete && AllCompleted(m.tasks)
    case GoalFailedEvent => m.goalState == GoalFailed
    case GoalCancelledEvent => m.goalState == GoalCancelled
  }

  /** With a store, the last write was attempted on this memory: if it worked, the row holds it. */
  predicate Durable(hasStore: bool, works: nat -> bool, stored: Option<GoalCheckpoint>, m: Memory, writes: nat) {
    hasStore ==> writes > 0 && (works(writes - 1) ==> stored == Some(Checkpoint(m)))
  }

  predicate JustSaved(s: RunState) { Durable(s.hasStore, s.works, s.stored, s.memory, s.writes) }

  ghost predicate EntryOk(e: Emitted, hasStore: bool, works: nat -> bool) {
    Durable(hasStore, works, e.stored, e.memory, e.writes) && MemoryOk(e.memory) && Tells(e.event, e.memory)
  }

  ghost predicate EntriesOk(s: RunState) {
    forall k :: 0 <= k < |s.emitted| ==> EntryOk(s.emitted[k], s.hasStore, s.works)
  }

  /** Accepted first, nothing terminal yet. */
  ghost predicate Opened(s: RunState) {
    && |s.emitted| > 0 && s.emitted[0].event == GoalAcceptedEvent && EntriesOk(s)
    && forall k :: 0 < k < |s.emitted| ==> !Terminal(s.emitted[k].event) && s.emitted[k].event != GoalAcceptedEvent
  }

  /** Accepted first, one terminal event, at the end. */
  ghost predicate Ended(s: RunState) {
    && |s.emitted| > 1 && s.emitted[0].event == GoalAcceptedEvent && EntriesOk(s)
    && (forall k :: 0 < k < |s.emitted| ==> s.emitted[k].event != GoalAcceptedEvent)
    && (forall k :: 0 <= k < |s.emitted| ==> (Terminal(s.emitted[k].event) <==> k == |s.emitted| - 1))
    && s.emitted[|s.emitted| - 1].memory == s.memory
  }

  lemma SaveOpened(s: RunState)
    ensures JustSaved(Save(s)) && Save(s).memory == s.memory && (Opened(s) ==> Opened(Save(s)))
  {}

  lemma EmitOpened(s: RunState, e: Event)
    requires Opened(s) && !Terminal(e) && e != GoalAcceptedEvent
    requires JustSaved(s) && MemoryOk(s.memory) && Tells(e, s.memory)
    ensures Opened(Emit(s, e)) && JustSaved(Emit(s, e)) && Emit(s, e).memory == s.memory
  {}

  lemma EmitEnded(s: RunState, e: Event)
    requires Opened(s) && Terminal(e)
    requires JustSaved(s) && MemoryOk(s.memory) && Tells(e, s.memory)
    ensures Ended(Emit(s, e))
  {
    var t := Emit(s, e);
    forall k | 0 <= k < |t.emitted| ensures Terminal(t.emitted[k].event) <==> k == |t.emitted| - 1 {
      if k == 0 {
      } else if k < |s.emitted| {
        assert t.emitted[k] == s.emitted[k];
      }
    }
  }

  /** The memory changed since, and is saved and reported as the run ends. */
  lemma SavedEnd(s: RunState, e: Event)
    requires Opened(s) && Terminal(e) && MemoryOk(s.memory) && Tells(e, s.memory)
    ensures Ended(Emit(Save(s), e))
  {
    SaveOpened(s);
    EmitEnded(Save(s), e);
  }

  lemma SavedStep(s: RunState, e: Event)
    requires Opened(s) && !Terminal(e) && e != GoalAcceptedEvent && MemoryOk(s.memory) && Tells(e, s.memory)
    ensures Opened(Emit(Save(s), e)) && JustSaved(Emit(Save(s), e)) && Emit(Save(s), e).memory == s.memory
  {
    SaveOpened(s);
    EmitOpened(Save(s), e);
  }

  lemma EndGoalEnds(s: RunState, g: GoalStatus, e: Event)
    requires Opened(s) && MemoryOk(s.memory)
    requires (g, e) in {(GoalFailed, GoalFailedEvent), (GoalCancelled, GoalCancelledEvent)}
    ensures Ended(EndGoal(s, g, e))
  {
    SavedEnd(SetGoal(s, g), e);
  }

  /** The plan that an unfinished task must be left with. */
  ghost predicate LeftOk(t: Task) { t.work.Composite? ==> PlanOk(t.work.plan) && Unfinished(t.work.plan.steps) }

  lemma LeftWorkingOk(m: Memory, i: nat, state: TaskStatus, g: GoalStatus)
    requires Working(m, i) && LeftOk(m.tasks[i]) && state != TaskCompleted
    ensures MemoryOk(m.(tasks := m.tasks[i := m.tasks[i].(state := state)], goalState := g))
  {
    var left := m.(tasks := m.tasks[i := m.tasks[i].(state := state)], goalState := g);
    assert Working(left, i);
    WorkingOk(left, i);
  }

  lemma FailTaskEnds(s: RunState, i: nat)
    requires Opened(s) && Working(s.memory, i) && LeftOk(s.memory.tasks[i])
    ensures Ended(FailTask(s, i))
  {
    var failed := SetGoal(SetTask(s, i, TaskFailed), GoalFailed);
    LeftWorkingOk(s.memory, i, TaskFailed, GoalFailed);
    SavedStep(failed, TaskFailedEvent(i));
    EmitEnded(Emit(Save(failed), TaskFailedEvent(i)), GoalFailedEvent);
  }

  lemma SuspendTaskEnds(s: RunState, i: nat)
    requires Opened(s) && Working(s.memory, i) && LeftOk(s.memory.tasks[i])
    ensures Ended(SuspendTask(s, i))
  {
    LeftWorkingOk(s.memory, i, TaskWaiting, GoalWaiting);
    SavedEnd(SetGoal(SetTask(s, i, TaskWaiting), GoalWaiting), WaitingEvent);
  }

  lemma CompleteTaskGoesOn(s: RunState, i: nat)
    requires Opened(s) && Working(s.memory, i)
    requires s.memory.tasks[i].work.Composite? ==> PlanOk(s.memory.tasks[i].work.plan)
    ensures Opened(CompleteTask(s, i)) && Reached(CompleteTask(s, i).memory, i + 1)
  {
    var listed := ListCompleted(SetTask(s, i, TaskCompleted), s.memory.tasks[i].id);
    assert Frontier(listed.memory.tasks, listed.memory.completedIds, i + 1);
    SavedStep(listed, TaskCompletedEvent(i));
  }

  lemma StartTaskWorks(s: RunState, i: nat)
    requires Opened(s) && Reached(s.memory, i) && i < |s.memory.tasks| && !Skips(s.memory, i)
    ensures Opened(StartTask(s, i)) && Working(StartTask(s, i).memory, i) && MemoryOk(StartTask(s, i).memory)
  {
    var begun := SetCurrent(SetTask(s, i, TaskExecuting), i);
    assert s.memory.tasks[i].state != TaskCompleted;
    assert Working(begun.memory, i);
    WorkingOk(begun.memory, i);
    SavedStep(begun, TaskStartedEvent(i));
  }

  lemma PerformLeaves(s: RunState, i: nat, world: World)
    requires Opened(s) && Working(s.memory, i) && MemoryOk(s.memory)
    ensures var (end, t) := Perform(s, i, world);
            && Opened(t) && Working(t.memory, i)
            && (t.memory.tasks[i].work.Composite? ==> PlanOk(t.memory.tasks[i].work.plan))
            && (end != TaskSucceeded ==> LeftOk(t.memory.tasks[i]))
  {
    if s.memory.tasks[i].work.Composite? {
      TaskPlan(s.memory.tasks[i].work.plan, world, s.tick);
    }
  }

  lemma ConcludeEvents(end: TaskEnd, s: RunState, i: nat, world: World)
    requires Opened(s) && Working(s.memory, i)
    requires s.memory.tasks[i].work.Composite? ==> PlanOk(s.memory.tasks[i].work.plan)
    requires end != TaskSucceeded ==> LeftOk(s.memory.tasks[i])
    ensures FlowOk(Goals.Conclude(end, s, i, world), i)
  {
    match end
    case TaskSucceeded => CompleteTaskGoesOn(s, i);
    case TaskWaits => SuspendTaskEnds(s, i);
    case TaskFails(_) => FailTaskEnds(s, i);
    case TornDown =>
      FailTaskEnds(Later(s), i);
      WorkingOk(s.memory, i);
      EndGoalEnds(Later(s), GoalFailed, GoalFailedEvent);
  }

  ghost predicate FlowOk(flow: Flow, i: nat) {
    match flow
    case Continue(t) => Opened(t) && Reached(t.memory, i + 1)
    case Return(t) => Ended(t)
  }

  lemma AbandonedEnds(s: RunState, i: nat)
    requires Opened(s) && Working(s.memory, i) && MemoryOk(s.memory)
    ensures Ended(FailTask(s, i))
  {
    assert TaskOk(s.memory.tasks[i]);
    FailTaskEnds(s, i);
  }

  lemma PerformedEvents(s: RunState, i: nat, world: World)
    requires Opened(s) && Working(s.memory, i) && MemoryOk(s.memory)
    ensures FlowOk(PerformAndConclude(s, i, world), i)
  {
    PerformLeaves(s, i, world);
    var (end, performed) := Perform(s, i, world);
    ConcludeEvents(end, performed, i, world);
  }

  lemma LaterWorks(s: RunState, i: nat)
    requires Opened(s) && Working(s.memory, i) && MemoryOk(s.memory)
    ensures var t := Later(s);
            Opened(t) && Working(t.memory, i) && MemoryOk(t.memory)
  {}

  lemma WorkOnEvents(s: RunState, i: nat, world: World)
    requires Opened(s) && Working(s.memory, i) && MemoryOk(s.memory)
    ensures FlowOk(WorkOn(s, i, world), i)
  {
    LaterWorks(s, i);
    if world(s.tick).cancel {
      AbandonedEnds(Later(s), i);
    } else {
      PerformedEvents(Later(s), i, world);
    }
  }

  lemma BusyEvents(s: RunState, i: nat, world: World)
    requires Opened(s) && Reached(s.memory, i) && i < |s.memory.tasks| && !Skips(s.memory, i)
    ensures FlowOk(WorkOn(StartTask(s, i), i, world), i)
  {
    StartTaskWorks(s, i);
    WorkOnEvents(StartTask(s, i), i, world);
  }

  lemma ReachedLater(s: RunState, i: nat)
    requires Opened(s) && Reached(s.memory, i)
    ensures Opened(Later(s)) && Reached(Later(s).memory, i)
  {}

  lemma CancelledEvents(s: RunState, i: nat)
    requires Opened(s) && Reached(s.memory, i)
    ensures FlowOk(Flow.Return(EndGoal(s, GoalCancelled, GoalCancelledEvent)), i)
  {
    EndGoalEnds(s, GoalCancelled, GoalCancelledEvent);
  }

  lemma TurnEvents(s: RunState, i: nat, world: World)
    requires Opened(s) && Reached(s.memory, i) && i < |s.memory.tasks|
    ensures FlowOk(TaskTurn(s, i, world), i)
  {
    ReachedLater(s, i);
    if !Skips(s.memory, i) {
      if world(s.tick).cancel {
        CancelledEvents(Later(s), i);
      } else {
        BusyEvents(Later(s), i, world);
      }
    }
  }

  lemma VerifyingOpens(s: RunState)
    requires Opened(s) && MemoryOk(s.memory)
    ensures var t := EndGoal(s, GoalVerifying, GoalVerifyingEvent);
            Opened(t) && MemoryOk(t.memory) && t.memory.tasks == s.memory.tasks
  {
    SavedStep(SetGoal(s, GoalVerifying), GoalVerifyingEvent);
  }

  lemma CompleteGoalEnds(s: RunState)
    requires Opened(s) && MemoryOk(s.memory) && AllCompleted(s.memory.tasks)
    ensures Ended(EndGoal(MarkComplete(s), GoalCompleted, GoalCompletedEvent))
  {
    SavedEnd(SetGoal(MarkComplete(s), GoalCompleted), GoalCompletedEvent);
  }

  lemma FailGoalEnds(s: RunState)
    requires Opened(s) && MemoryOk(s.memory)
    ensures Ended(EndGoal(Later(s), GoalFailed, GoalFailedEvent))
  {
    EndGoalEnds(Later(s), GoalFailed, GoalFailedEvent);
  }

  lemma VerifyEvents(s: RunState, world: World)
    requires Opened(s) && Reached(s.memory, |s.memory.tasks|)
    ensures Ended(VerifyGoal(s, world))
  {
    VerifyingOpens(s);
    var verifying := EndGoal(s, GoalVerifying, GoalVerifyingEvent);
    var looked := Later(verifying);
    assert Opened(looked);
    if world(verifying.tick).strike != OuterDeadline && AllCompleted(s.memory.tasks)
       && (world(verifying.tick).goalVerified || NothingToCheck(s.memory.tasks)) {
      CompleteGoalEnds(looked);
    } else {
      FailGoalEnds(verifying);
    }
  }

  lemma {:induction false} RunTasksEvents(s: RunState, i: nat, world: World)
    requires Opened(s) && Reached(s.memory, i)
    ensures Ended(RunTasks(s, i, world))
    decreases |s.memory.tasks| - i
  {
    if i == |s.memory.tasks| {
      VerifyEvents(s, world);
    } else {
      var flow := TaskTurn(s, i, world);
      TurnEvents(s, i, world);
      if flow.Continue? {
        TurnKeepsTasks(s, i, world);
        RunTasksEvents(flow.s, i + 1, world);
      }
      RunTasksUnfolds(s, i, world);
    }
  }

  lemma AcceptedOpens(s: RunState)
    requires MemoryOk(s.memory) && s.emitted == []
    ensures var t := Emit(Save(s), GoalAcceptedEvent);
            Opened(t) && JustSaved(t) && t.memory == s.memory
  {}

  lemma RefusedStream(s: RunState)
    requires MemoryOk(s.memory) && s.emitted == [] && Refuse(s).Some?
    ensures Ended(Refuse(s).value)
  {
    if s.memory.goalState == GoalWaiting && s.goalClarification.Some? {
      var asked := s.(memory := s.memory.(clarification := s.goalClarification));
      AcceptedOpens(asked);
      EmitEnded(Emit(Save(asked), GoalAcceptedEvent), WaitingEvent);
    } else {
      AcceptedOpens(s);
      EmitEnded(Emit(Save(s), GoalAcceptedEvent), GoalFailedEvent);
    }
  }

  /** The event stream of a whole run: it starts with GOAL_ACCEPTED and has exactly one terminal
      event, its last; with a store, a write of the checkpoint of memory precedes every event and,
      if it worked, is what the store holds; a task starts only when all earlier ones are
      completed, and the goal is reported complete only when all are. See EntryOk. */
  lemma RunStream(s: RunState, world: World)
    requires MemoryOk(s.memory) && s.emitted == []
    ensures Ended(Goals.Run(s, world))
  {
    if Refuse(s).Some? {
      RefusedStream(s);
    } else {
      AcceptedOpens(SetGoal(s, GoalExecuting));
      RunTasksEvents(EndGoal(s, GoalExecuting, GoalAcceptedEvent), 0, world);
    }
  }
}
