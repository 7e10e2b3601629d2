/** What becomes of a cancel event: which runs report it as a cancellation, and which as a
    failure. */
module CancelledGoal {
  import opened Domain
  import opened SequenceSpec
  import opened CompositeTask
  import opened CompositeTaskFacts
  import opened Goals

  /** The last answer read since `start` was no cancel. */
  predicate Heeded(world: World, start: nat, now: nat) { now == start || (now > start && !world(now - 1).cancel) }

  lemma NothingMissed(world: World, start: nat, now: nat, t: nat)
    requires CancelLatches(world) && Heeded(world, start, now) && start <= t < now
    ensures !world(t).cancel
  {
    assert !world(now - 1).cancel;
  }

  // ---- one sequence run

  lemma {:induction false} AttemptsHeed(position: nat, step: Step, attempt: nat, limit: nat, last: Option<ErrorCode>,
                                        world: World, effects: seq<Effect>, tick: nat)
    ensures var end := Attempts(position, step, attempt, limit, last, world, effects, tick);
            end.tick >= tick && (end.Achieved? ==> end.tick > tick && !world(end.tick - 1).cancel)
    decreases limit - attempt
  {
    if attempt < limit {
      AttemptsUnfold(position, step, attempt, limit, last, world, effects, tick);
      var t := Attempt(position, step, attempt + 1 < limit, last, world, effects, tick);
      if t.Again? {
        AttemptsHeed(position, t.step, attempt + 1, limit, t.error, world, t.effects, t.tick);
      }
    }
  }

  /** The loop head: as long as every step so far completed, the last answer was no cancel. */
  predicate OnCourse(p: Progress, idx: nat, world: World, start: nat) {
    && p.status == Success && p.completed <= idx <= |p.steps| && start <= p.tick
    && (p.completed == idx ==> Heeded(world, start, p.tick))
  }

  /** A run that ends well or asks for permission has read no cancel last. */
  predicate WellEnded(stage: Stage, world: World, start: nat) {
    && start <= stage.p.tick
    && (stage.Ran? && SequenceSpec.Conclude(stage.p).status in {Success, PermissionDenied} ==>
       Heeded(world, start, stage.p.tick))
  }

  lemma {:induction false} CompensateKeeps(p: Progress, count: nat, world: World)
    requires count <= |p.steps|
    ensures var stage := Compensate(p, count, world);
            stage.p.status == p.status && stage.p.completed == p.completed && |stage.p.steps| == |p.steps|
              && p.tick <= stage.p.tick
    decreases count
  {
    if count > 0 {
      CompensateUnfolds(p, count, world);
      CompensateKeeps(p, count - 1, world);
      CompensateKeeps(Recorded(p, count - 1, world(p.tick)), count - 1, world);
    }
  }

  ghost predicate MoveHeeds(m: Move, idx: nat, world: World, start: nat) {
    match m
    case Proceed(p) => OnCourse(p, idx + 1, world, start)
    case Halt(stage) => WellEnded(stage, world, start)
  }

  lemma RecoverHeeds(p: Progress, idx: nat, plan: Sequence, world: World, start: nat)
    requires p.status == Success && p.completed <= idx < |p.steps| && start <= p.tick
    ensures MoveHeeds(Recover(p, idx, plan, world), idx, world, start)
  {
    CompensateKeeps(p, idx, world);
  }

  lemma AttemptedHeeds(p: Progress, idx: nat, plan: Sequence, end: AttemptEnd, world: World, start: nat)
    requires OnCourse(p, idx, world, start) && idx < |p.steps|
    requires end.tick > p.tick && (end.Achieved? ==> !world(end.tick - 1).cancel)
    ensures MoveHeeds(AfterAttempts(p, idx, plan, end, world), idx, world, start)
  {
    if end.GaveUp? {
      RecoverHeeds(Fail(Acted(p, end.effects, end.tick), idx, end.step, end.error), idx, plan, world, start);
    }
  }

  lemma KeptOutHeeds(p: Progress, idx: nat, plan: Sequence, gate: Gate, world: World, start: nat)
    requires OnCourse(p, idx, world, start) && idx < |p.steps|
    requires world(p.tick).cancel || (Gated(p.steps[idx].spec) && !Allowed(p.steps[idx].spec, gate, world(p.tick)))
    ensures MoveHeeds(Turn(p, idx, plan, gate, world), idx, world, start)
  {}

  lemma AttemptingHeeds(p: Progress, idx: nat, plan: Sequence, world: World, start: nat)
    requires OnCourse(p, idx, world, start) && idx < |p.steps|
    ensures MoveHeeds(Tackle(p, idx, plan, world), idx, world, start)
  {
    var begun, limit := p.steps[idx].(status := Executing), AttemptLimit(plan.maxRetries);
    AttemptsHeed(idx, begun, 0, limit, None, world, p.effects, p.tick + 1);
    AttemptedHeeds(p, idx, plan, Attempts(idx, begun, 0, limit, None, world, p.effects, p.tick + 1), world, start);
  }

  lemma TurnHeeds(p: Progress, idx: nat, plan: Sequence, gate: Gate, world: World, start: nat)
    requires OnCourse(p, idx, world, start) && idx < |p.steps|
    ensures MoveHeeds(Turn(p, idx, plan, gate, world), idx, world, start)
  {
    if world(p.tick).cancel || (Gated(p.steps[idx].spec) && !Allowed(p.steps[idx].spec, gate, world(p.tick))) {
      KeptOutHeeds(p, idx, plan, gate, world, start);
    } else {
      AttemptingHeeds(p, idx, plan, world, start);
    }
  }

  lemma {:induction false} LoopHeeds(p: Progress, idx: nat, plan: Sequence, gate: Gate, world: World, start: nat)
    requires OnCourse(p, idx, world, start)
    ensures WellEnded(StepLoop(p, idx, plan, gate, world), world, start)
    decreases |p.steps| - idx
  {
    if idx == |p.steps| {
      assert StepLoop(p, idx, plan, gate, world) == Ran(p);
    } else {
      TurnHeeds(p, idx, plan, gate, world, start);
      StepLoopUnfolds(p, idx, plan, gate, world);
      var m := Turn(p, idx, plan, gate, world);
      if m.Proceed? {
        LoopHeeds(m.p, idx + 1, plan, gate, world, start);
      }
    }
  }

  /** A sequence that succeeds or asks for permission has read no cancel last. */
  lemma SequenceHeeds(plan: Sequence, gate: Gate, world: World, tick: nat)
    ensures var out := Execute(plan, gate, world, tick);
            out.Returned? ==>
              && tick <= out.result.tick
              && (out.result.status in {Success, PermissionDenied} ==> Heeded(world, tick, out.result.tick))
  {
    LoopHeeds(Start(plan, tick), 0, plan, gate, world, tick);
  }

  // ---- one task

  predicate RunHeeds(run: TaskRun, world: World, start: nat) {
    run.end in {TaskSucceeded, TaskWaits} ==> Heeded(world, start, run.state.tick)
  }

  lemma ReactHeeds(s: TaskState, r: Progress, world: World)
    requires s.tick <= r.tick && (r.status in {Success, PermissionDenied} ==> Heeded(world, s.tick, r.tick))
    ensures var next := React(s, r, world);
            && (next.Stop? ==> RunHeeds(next.run, world, s.tick))
            && (next.Rerun? ==> next.state.tick > s.tick && Heeded(world, s.tick, next.state.tick))
  {}

  lemma LaterHeeds(run: TaskRun, world: World, start: nat, later: nat)
    requires Heeded(world, start, later) && RunHeeds(run, world, later)
    ensures RunHeeds(run, world, start)
  {}

  lemma {:induction false} TaskLoopHeeds(s: TaskState, world: World)
    requires s.replans <= MaxReplans
    ensures RunHeeds(Loop(s, world), world, s.tick)
    decreases MaxReplans - s.replans
  {
    SequenceHeeds(s.plan, NoEvaluator, world, s.tick);
    var out := Execute(s.plan, NoEvaluator, world, s.tick);
    if out.Returned? {
      var next := React(s, out.result, world);
      ReactHeeds(s, out.result, world);
      ReactShape(s, out.result, world);
      LoopFollows(s, out.result, world);
      if next.Rerun? {
        TaskLoopHeeds(next.state, world);
        LaterHeeds(Loop(next.state, world), world, s.tick, next.state.tick);
      }
    }
  }

  /** A task that succeeds or asks the user has read no cancel last: with a cancel event that
      stays set, none at all. */
  lemma TaskHeeds(plan: Sequence, world: World, tick: nat)
    ensures RunHeeds(RunTask(plan, world, tick), world, tick)
  {
    RunTaskIsLoop(plan, world, tick);
    TaskLoopHeeds(Begin(plan, tick), world);
  }

  // ---- the goal

  /** The state in which the task loop, entered at task `i` in `s`, reaches task `k`. */
  function HeadAt(s: RunState, i: nat, k: nat, world: World): Option<RunState>
    requires i <= k <= |s.memory.tasks|
    decreases k - i, 1
  {
    if k == i then Some(s) else HeadBehind(s, i, k, world)
  }

  /** The turn of task `i`, and the state reached behind it. */
  function HeadBehind(s: RunState, i: nat, k: nat, world: World): Option<RunState>
    requires i < k <= |s.memory.tasks|
    decreases k - i, 0
  {
    TurnKeepsTasks(s, i, world);
    match TaskTurn(s, i, world)
    case Return(_) => None
    case Continue(next) => HeadAt(next, i + 1, k, world)
  }

  lemma HeadAtUnfolds(s: RunState, i: nat, k: nat, world: World)
    requires i < k <= |s.memory.tasks|
    ensures var flow := TaskTurn(s, i, world);
            && (flow.Return? ==> HeadAt(s, i, k, world) == None)
            && (flow.Continue? ==> |flow.s.memory.tasks| == |s.memory.tasks|
                                   && HeadAt(s, i, k, world) == HeadAt(flow.s, i + 1, k, world))
  {
    TurnKeepsTasks(s, i, world);
    assert HeadAt(s, i, k, world) == HeadBehind(s, i, k, world);
  }

  predicate StopsAt(head: Option<RunState>, k: nat, world: World) {
    head.Some? && k < |head.value.memory.tasks| && !Skips(head.value.memory, k) && world(head.value.tick).cancel
  }

  /** The loop reaches task `k`, is not to skip it, and sees the cancel event there. */
  predicate SeenAt(s: RunState, i: nat, k: nat, world: World)
    requires i <= k < |s.memory.tasks|
  {
    StopsAt(HeadAt(s, i, k, world), k, world)
  }

  ghost predicate SeenSomewhere(s: RunState, i: nat, world: World) {
    exists k: nat :: i <= k < |s.memory.tasks| && SeenAt(s, i, k, world)
  }

  /** The last event the run has emitted. */
  predicate EndsWith(s: RunState, e: Event) { s.emitted != [] && s.emitted[|s.emitted| - 1].event == e }

  lemma SeenLater(s: RunState, i: nat, k: nat, world: World)
    requires i < k < |s.memory.tasks|
    ensures var flow := TaskTurn(s, i, world);
            && (flow.Return? ==> !SeenAt(s, i, k, world))
            && (flow.Continue? ==> |flow.s.memory.tasks| == |s.memory.tasks|
                                   && (SeenAt(s, i, k, world) <==> SeenAt(flow.s, i + 1, k, world)))
  {
    HeadAtUnfolds(s, i, k, world);
  }

  lemma SeenHere(s: RunState, i: nat, world: World)
    requires i < |s.memory.tasks| && TaskTurn(s, i, world).Return?
    ensures SeenSomewhere(s, i, world) <==> StopsAt(Some(s), i, world)
  {
    assert SeenAt(s, i, i, world) <==> StopsAt(Some(s), i, world);
    forall k: nat | i < k < |s.memory.tasks| ensures !SeenAt(s, i, k, world) {
      SeenLater(s, i, k, world);
    }
  }

  lemma NotSeenHere(s: RunState, i: nat, world: World)
    requires i < |s.memory.tasks| && TaskTurn(s, i, world).Continue?
    ensures !SeenAt(s, i, i, world)
  {}

  lemma SeenBehind(s: RunState, i: nat, world: World)
    requires i < |s.memory.tasks| && TaskTurn(s, i, world).Continue?
    ensures SeenSomewhere(s, i, world) <==> SeenSomewhere(TaskTurn(s, i, world).s, i + 1, world)
  {
    NotSeenHere(s, i, world);
    TurnKeepsTasks(s, i, world);
    var next := TaskTurn(s, i, world).s;
    if SeenSomewhere(s, i, world) {
      var k: nat :| i <= k < |s.memory.tasks| && SeenAt(s, i, k, world);
      SeenLater(s, i, k, world);
    }
    if SeenSomewhere(next, i + 1, world) {
      var k: nat :| i + 1 <= k < |next.memory.tasks| && SeenAt(next, i + 1, k, world);
      SeenLater(s, i, k, world);
    }
  }

  lemma ConcludeEnds(end: TaskEnd, s: RunState, i: nat, world: World)
    requires i < |s.memory.tasks|
    ensures var flow := Goals.Conclude(end, s, i, world);
            flow.Return? ==> EndsWith(flow.s, if end == TaskWaits then WaitingEvent else GoalFailedEvent)
  {}

  /** The turn ends the run with WAITING or GOAL_FAILED, if it ends it. */
  predicate EndsUncancelled(flow: Flow) {
    flow.Return? ==> EndsWith(flow.s, WaitingEvent) || EndsWith(flow.s, GoalFailedEvent)
  }

  lemma PerformEnds(s: RunState, i: nat, world: World)
    requires i < |s.memory.tasks|
    ensures EndsUncancelled(PerformAndConclude(s, i, world))
  {
    var (end, performed) := Perform(s, i, world);
    ConcludeEnds(end, performed, i, world);
  }

  lemma WorkEnds(s: RunState, i: nat, world: World)
    requires i < |s.memory.tasks|
    ensures EndsUncancelled(WorkOn(s, i, world))
  {
    if !world(s.tick).cancel {
      PerformEnds(Later(s), i, world);
    }
  }

  lemma BusyTurnEnds(s: RunState, i: nat, world: World)
    requires i < |s.memory.tasks| && !Skips(s.memory, i) && !world(s.tick).cancel
    ensures EndsUncancelled(TaskTurn(s, i, world))
  {
    WorkEnds(StartTask(Later(s), i), i, world);
  }

  lemma TurnEndsCancelled(s: RunState, i: nat, world: World)
    requires i < |s.memory.tasks| && TaskTurn(s, i, world).Return?
    ensures EndsWith(TaskTurn(s, i, world).s, GoalCancelledEvent) <==> StopsAt(Some(s), i, world)
  {
    if !world(s.tick).cancel && !Skips(s.memory, i) {
      BusyTurnEnds(s, i, world);
    }
  }

  lemma {:induction false} LoopEndsCancelled(s: RunState, i: nat, world: World)
    requires i <= |s.memory.tasks|
    ensures EndsWith(RunTasks(s, i, world), GoalCancelledEvent) <==> SeenSomewhere(s, i, world)
    decreases |s.memory.tasks| - i
  {
    if i < |s.memory.tasks| {
      RunTasksUnfolds(s, i, world);
      var flow := TaskTurn(s, i, world);
      if flow.Return? {
        SeenHere(s, i, world);
        TurnEndsCancelled(s, i, world);
      } else {
        SeenBehind(s, i, world);
        LoopEndsCancelled(flow.s, i + 1, world);
      }
    }
  }

  /** The state in which a run that is not refused enters the task loop. */
  function Opening(s: RunState): RunState { EndGoal(s, GoalExecuting, GoalAcceptedEvent) }

  /** A goal is reported cancelled exactly when it is not refused and its task loop reaches a task
      it does not skip with the cancel event set. */
  lemma GoalCancelledExactly(s: RunState, world: World)
    ensures EndsWith(Goals.Run(s, world), GoalCancelledEvent) <==>
            Refuse(s).None? && SeenSomewhere(Opening(s), 0, world)
  {
    if Refuse(s).None? {
      LoopEndsCancelled(Opening(s), 0, world);
    }
  }

  // ---- a cancel that is first seen inside a task

  lemma {:induction false} HeadDecides(s: RunState, i: nat, k: nat, world: World) returns (head: RunState)
    requires i <= k <= |s.memory.tasks| && HeadAt(s, i, k, world).Some?
    ensures head == HeadAt(s, i, k, world).value
    ensures |head.memory.tasks| == |s.memory.tasks| && RunTasks(s, i, world) == RunTasks(head, k, world)
    decreases k - i
  {
    if i < k {
      HeadAtUnfolds(s, i, k, world);
      RunTasksUnfolds(s, i, world);
      head := HeadDecides(TaskTurn(s, i, world).s, i + 1, k, world);
    } else {
      head := s;
    }
  }

  /** The run of the sequence of task `k`, entered at its head. */
  function TaskOf(head: RunState, k: nat, world: World): TaskRun
    requires k < |head.memory.tasks| && head.memory.tasks[k].work.Composite?
  {
    RunTask(head.memory.tasks[k].work.plan, world, head.tick + 2)
  }

  /** Where the task's reading ends: behind the check that follows TASK_STARTED if that sees a
      cancel, behind the sequence's own reading otherwise. */
  function WorkedUntil(head: RunState, k: nat, world: World): nat
    requires k < |head.memory.tasks| && head.memory.tasks[k].work.Composite?
  {
    if world(head.tick + 1).cancel then head.tick + 2 else TaskOf(head, k, world).state.tick
  }

  /** The goal failed at task `k`, reported by its last two events. */
  predicate TaskReportedFailed(s: RunState, k: nat) {
    && |s.emitted| > 1 && s.emitted[|s.emitted| - 2].event == TaskFailedEvent(k) && EndsWith(s, GoalFailedEvent)
    && k < |s.memory.tasks| && s.memory.tasks[k].state == TaskFailed && s.memory.goalState == GoalFailed
  }

  /** The goal failed under its own deadline, which tore task `k` down. */
  predicate DeadlineReported(s: RunState) { EndsWith(s, GoalFailedEvent) && s.memory.goalState == GoalFailed }

  lemma FailTaskReports(s: RunState, k: nat)
    requires k < |s.memory.tasks|
    ensures TaskReportedFailed(FailTask(s, k), k)
  {}

  lemma FailedTaskConcludes(end: TaskEnd, s: RunState, k: nat, world: World)
    requires k < |s.memory.tasks| && end !in {TaskSucceeded, TaskWaits}
    ensures var flow := Goals.Conclude(end, s, k, world);
            && flow.Return?
            && (if end == TornDown && world(s.tick).goalDeadline then DeadlineReported(flow.s)
               else TaskReportedFailed(flow.s, k))
  {
    if end == TornDown {
      FailTaskReports(Later(s), k);
    } else {
      FailTaskReports(s, k);
    }
  }

  lemma CancelledTaskDoesNotEndWell(plan: Sequence, world: World, tick: nat, t: nat)
    requires CancelLatches(world) && world(t).cancel && tick <= t < RunTask(plan, world, tick).state.tick
    ensures RunTask(plan, world, tick).end !in {TaskSucceeded, TaskWaits}
  {
    TaskHeeds(plan, world, tick);
    if RunTask(plan, world, tick).end in {TaskSucceeded, TaskWaits} {
      NothingMissed(world, tick, RunTask(plan, world, tick).state.tick, t);
    }
  }

  lemma FailedPerformance(s: RunState, k: nat, world: World)
    requires k < |s.memory.tasks| && s.memory.tasks[k].work.Composite?
    requires RunTask(s.memory.tasks[k].work.plan, world, s.tick).end !in {TaskSucceeded, TaskWaits}
    ensures var flow, run := PerformAndConclude(s, k, world), RunTask(s.memory.tasks[k].work.plan, world, s.tick);
            && flow.Return?
            && (if run.end == TornDown && world(run.state.tick).goalDeadline then DeadlineReported(flow.s)
                else TaskReportedFailed(flow.s, k))
  {
    var (end, performed) := Perform(s, k, world);
    FailedTaskConcludes(end, performed, k, world);
  }

  lemma CancelledWorkFails(s: RunState, k: nat, world: World, t: nat)
    requires k < |s.memory.tasks| && s.memory.tasks[k].work.Composite?
    requires CancelLatches(world) && world(t).cancel && s.tick <= t
    requires !world(s.tick).cancel ==> t < RunTask(s.memory.tasks[k].work.plan, world, s.tick + 1).state.tick
    ensures var flow := WorkOn(s, k, world);
            var run := RunTask(s.memory.tasks[k].work.plan, world, s.tick + 1);
            && flow.Return?
            && (if !world(s.tick).cancel && run.end == TornDown && world(run.state.tick).goalDeadline
                then DeadlineReported(flow.s)
                else TaskReportedFailed(flow.s, k))
  {
    var looked := Later(s);
    if world(s.tick).cancel {
      FailTaskReports(looked, k);
    } else {
      CancelledTaskDoesNotEndWell(s.memory.tasks[k].work.plan, world, s.tick + 1, t);
      FailedPerformance(looked, k, world);
    }
  }

  lemma CancelledTurnFails(head: RunState, k: nat, world: World, t: nat)
    requires k < |head.memory.tasks| && !Skips(head.memory, k) && head.memory.tasks[k].work.Composite?
    requires !world(head.tick).cancel && head.tick < t < WorkedUntil(head, k, world)
    requires CancelLatches(world) && world(t).cancel
    ensures var out, run := RunTasks(head, k, world), TaskOf(head, k, world);
            if !world(head.tick + 1).cancel && run.end == TornDown && world(run.state.tick).goalDeadline
            then DeadlineReported(out)
            else TaskReportedFailed(out, k)
  {
    CancelledWorkFails(StartTask(Later(head), k), k, world, t);
    RunTasksUnfolds(head, k, world);
  }

  /** A cancel event first seen while a composite task is at work, at whatever point of it, is
      reported as TASK_FAILED and GOAL_FAILED; as GOAL_FAILED alone when the goal's deadline tears
      that task down. */
  lemma CancelMidTaskFails(s: RunState, k: nat, world: World, t: nat)
    requires Refuse(s).None? && k < |s.memory.tasks| && HeadAt(Opening(s), 0, k, world).Some?
    requires var head := HeadAt(Opening(s), 0, k, world).value;
      && k < |head.memory.tasks| && !Skips(head.memory, k) && head.memory.tasks[k].work.Composite?
      && !world(head.tick).cancel && head.tick < t < WorkedUntil(head, k, world)
    requires CancelLatches(world) && world(t).cancel
    ensures var out, head := Goals.Run(s, world), HeadAt(Opening(s), 0, k, world).value;
            var run := TaskOf(head, k, world);
            if !world(head.tick + 1).cancel && run.end == TornDown && world(run.state.tick).goalDeadline
            then DeadlineReported(out)
            else TaskReportedFailed(out, k)
  {
    var head := HeadDecides(Opening(s), 0, k, world);
    CancelledTurnFails(head, k, world, t);
  }

  // ---- whatever the moment

  /** Every task runs a composite sequence or has nothing to run. */
  predicate AllComposite(tasks: seq<Task>) {
    forall j :: 0 <= j < |tasks| ==> tasks[j].work.Composite? || tasks[j].work == Plain(0)
  }

  lemma PerformHeeds(s: RunState, i: nat, world: World)
    requires i < |s.memory.tasks| && AllComposite(s.memory.tasks)
    ensures var (end, t) := Perform(s, i, world);
            && |t.memory.tasks| == |s.memory.tasks| && AllComposite(t.memory.tasks)
            && (end in {TaskSucceeded, TaskWaits} ==> Heeded(world, s.tick, t.tick))
  {
    if s.memory.tasks[i].work.Composite? {
      TaskHeeds(s.memory.tasks[i].work.plan, world, s.tick);
    }
  }

  /** A flow that goes on, or waits, has read no cancel last. */
  ghost predicate FlowHeeds(flow: Flow, world: World, start: nat) {
    match flow
    case Continue(t) => AllComposite(t.memory.tasks) && Heeded(world, start, t.tick)
    case Return(t) => EndsWith(t, GoalCompletedEvent) || EndsWith(t, WaitingEvent) ==>
                        EndsWith(t, WaitingEvent) && Heeded(world, start, t.tick)
  }

  lemma ConcludeHeeds(end: TaskEnd, s: RunState, i: nat, world: World, start: nat)
    requires i < |s.memory.tasks| && AllComposite(s.memory.tasks)
    requires end in {TaskSucceeded, TaskWaits} ==> Heeded(world, start, s.tick)
    ensures FlowHeeds(Goals.Conclude(end, s, i, world), world, start)
  {
    ConcludeEnds(end, s, i, world);
  }

  lemma PerformedHeeds(s: RunState, i: nat, world: World)
    requires i < |s.memory.tasks| && AllComposite(s.memory.tasks)
    ensures FlowHeeds(PerformAndConclude(s, i, world), world, s.tick)
  {
    PerformHeeds(s, i, world);
    var (end, performed) := Perform(s, i, world);
    ConcludeHeeds(end, performed, i, world, s.tick);
  }

  lemma FlowHeedsLonger(flow: Flow, world: World, start: nat, later: nat)
    requires FlowHeeds(flow, world, later) && Heeded(world, start, later)
    ensures FlowHeeds(flow, world, start)
  {}

  lemma EndCancelledHeeds(s: RunState, world: World, start: nat)
    ensures FlowHeeds(Flow.Return(EndGoal(s, GoalCancelled, GoalCancelledEvent)), world, start)
  {}

  lemma FailTaskHeeds(s: RunState, i: nat, world: World, start: nat)
    requires i < |s.memory.tasks|
    ensures FlowHeeds(Flow.Return(FailTask(s, i)), world, start)
  {}

  lemma WorkHeeds(s: RunState, i: nat, world: World, start: nat)
    requires i < |s.memory.tasks| && AllComposite(s.memory.tasks) && Heeded(world, start, s.tick)
    ensures FlowHeeds(WorkOn(s, i, world), world, start)
  {
    var looked := Later(s);
    if world(s.tick).cancel {
      FailTaskHeeds(looked, i, world, start);
    } else {
      PerformedHeeds(looked, i, world);
      FlowHeedsLonger(PerformAndConclude(looked, i, world), world, start, looked.tick);
    }
  }

  lemma BusyTurnHeeds(s: RunState, i: nat, world: World, start: nat)
    requires i < |s.memory.tasks| && AllComposite(s.memory.tasks) && Heeded(world, start, s.tick)
    requires !Skips(s.memory, i) && !world(s.tick).cancel
    ensures FlowHeeds(TaskTurn(s, i, world), world, start)
  {
    WorkHeeds(StartTask(Later(s), i), i, world, start);
  }

  lemma StoppedTurnHeeds(s: RunState, i: nat, world: World, start: nat)
    requires i < |s.memory.tasks| && !Skips(s.memory, i) && world(s.tick).cancel
    ensures FlowHeeds(TaskTurn(s, i, world), world, start)
  {
    EndCancelledHeeds(Later(s), world, start);
  }

  lemma TurnHeedsCancel(s: RunState, i: nat, world: World, start: nat)
    requires i < |s.memory.tasks| && AllComposite(s.memory.tasks) && Heeded(world, start, s.tick)
    ensures FlowHeeds(TaskTurn(s, i, world), world, start)
  {
    if !Skips(s.memory, i) {
      if world(s.tick).cancel {
        StoppedTurnHeeds(s, i, world, start);
      } else {
        BusyTurnHeeds(s, i, world, start);
      }
    }
  }

  /** Waiting, it has read no cancel last; complete, none before its check of the environment. */
  predicate EndHeeds(s: RunState, world: World, start: nat) {
    && (EndsWith(s, WaitingEvent) ==> Heeded(world, start, s.tick))
    && (EndsWith(s, GoalCompletedEvent) ==> exists t: nat :: s.tick == t + 1 && Heeded(world, start, t))
  }

  lemma VerifyHeeds(s: RunState, world: World, start: nat)
    requires Heeded(world, start, s.tick)
    ensures EndHeeds(VerifyGoal(s, world), world, start)
  {}

  lemma ReturnHeeds(flow: Flow, world: World, start: nat)
    requires FlowHeeds(flow, world, start) && flow.Return?
    ensures EndHeeds(flow.s, world, start)
  {}

  lemma {:induction false} LoopOfTasksHeeds(s: RunState, i: nat, world: World, start: nat)
    requires i <= |s.memory.tasks| && AllComposite(s.memory.tasks) && Heeded(world, start, s.tick)
    ensures EndHeeds(RunTasks(s, i, world), world, start)
    decreases |s.memory.tasks| - i
  {
    if i == |s.memory.tasks| {
      VerifyHeeds(s, world, start);
    } else {
      var flow := TaskTurn(s, i, world);
      TurnHeedsCancel(s, i, world, start);
      if flow.Continue? {
        TurnKeepsTasks(s, i, world);
        LoopOfTasksHeeds(flow.s, i + 1, world, start);
      } else {
        ReturnHeeds(flow, world, start);
      }
      RunTasksUnfolds(s, i, world);
    }
  }

  /** No goal of composite tasks waits or completes over a cancel event that stays set, except
      one that is first set when its tasks are done. */
  lemma CancelIsHeeded(s: RunState, world: World, t: nat)
    requires Refuse(s).None? && AllComposite(s.memory.tasks)
    requires CancelLatches(world) && world(t).cancel && s.tick <= t
    ensures var out := Goals.Run(s, world);
            && (EndsWith(out, WaitingEvent) ==> out.tick <= t)
            && (EndsWith(out, GoalCompletedEvent) ==> out.tick <= t + 1)
  {
    LoopOfTasksHeeds(Opening(s), 0, world, s.tick);
    var out := Goals.Run(s, world);
    if EndsWith(out, WaitingEvent) && t < out.tick {
      NothingMissed(world, s.tick, out.tick, t);
    }
    if EndsWith(out, GoalCompletedEvent) {
      var checked: nat :| out.tick == checked + 1 && Heeded(world, s.tick, checked);
      if t < checked {
        NothingMissed(world, s.tick, checked, t);
      }
    }
  }
}
