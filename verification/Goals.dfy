/** Goals, their tasks and checkpoints, and what running a goal means. */
module Goals {
  import opened Domain
  import opened CompositeTask

  datatype TaskStatus = Planning | TaskExecuting | TaskWaiting | TaskCompleted | TaskFailed

  datatype GoalStatus =
    | PlanCreated | GoalExecuting | GoalVerifying | GoalCompleted | GoalFailed | GoalCancelled | GoalWaiting

  /** A task runs its composite sequence if it has one, and its plain intents otherwise. */
  datatype Work = Composite(plan: Sequence) | Plain(intents: nat)

  datatype Task = Task(id: string, state: TaskStatus, work: Work, actions: seq<ActionRecord>)

  /** The goal and its execution context, as the runtime holds them in memory. */
  datatype Memory = Memory(
    goalId: string,
    goalState: GoalStatus,
    isComplete: bool,
    tasks: seq<Task>,
    current: nat,
    completedIds: seq<string>,
    clarification: Option<StepId>)

  // ---- checkpoints

  datatype TaskCheckpoint = TaskCheckpoint(
    taskId: string,
    index: nat,
    state: TaskStatus,
    completedSteps: seq<nat>,
    verifiedSteps: seq<nat>,
    isVerified: bool)

  datatype GoalCheckpoint = GoalCheckpoint(
    goalId: string,
    schemaVersion: string,
    goalState: GoalStatus,
    current: int,
    totalTasks: nat,
    tasks: seq<TaskCheckpoint>,
    clarification: Option<StepId>,
    resumable: bool)

  const SchemaVersion := "1.0"

  /** A step counts as completed once its actuation was accepted. */
  predicate CountsCompleted(s: Step) { s.accepted || Done(s) }

  predicate CountsVerified(s: Step) { SaysTrue(s.verdict) && IsVerified(s) }

  function IndicesOf(steps: seq<Step>, p: Step -> bool): seq<nat> {
    if steps == [] then []
    else IndicesOf(steps[..|steps| - 1], p) + (if p(steps[|steps| - 1]) then [steps[|steps| - 1].index] else [])
  }

  function StepsOf(t: Task): seq<Step> { if t.work.Composite? then t.work.plan.steps else [] }

  function CheckpointTask(t: Task, index: nat): TaskCheckpoint {
    TaskCheckpoint(t.id, index, t.state, IndicesOf(StepsOf(t), CountsCompleted),
                   IndicesOf(StepsOf(t), CountsVerified), t.state == TaskCompleted)
  }

  predicate EndState(g: GoalStatus) { g == GoalCompleted || g == GoalCancelled }

  function CheckpointTasks(tasks: seq<Task>): (r: seq<TaskCheckpoint>)
    ensures |r| == |tasks|
    ensures forall j :: 0 <= j < |tasks| ==> r[j] == CheckpointTask(tasks[j], j)
  {
    seq(|tasks|, j requires 0 <= j < |tasks| => CheckpointTask(tasks[j], j))
  }

  function Checkpoint(m: Memory): GoalCheckpoint {
    GoalCheckpoint(m.goalId, SchemaVersion, m.goalState, m.current, |m.tasks|, CheckpointTasks(m.tasks),
                   m.clarification, !EndState(m.goalState))
  }

  // ---- events

  datatype Event =
    | GoalAcceptedEvent | TaskStartedEvent(task: nat) | TaskCompletedEvent(task: nat) | TaskFailedEvent(task: nat)
    | WaitingEvent | GoalVerifyingEvent | GoalCompletedEvent | GoalFailedEvent | GoalCancelledEvent

  predicate Terminal(e: Event) {
    e == WaitingEvent || e == GoalCompletedEvent || e == GoalFailedEvent || e == GoalCancelledEvent
  }

  /** An event with the stored checkpoint, the memory and the number of writes to the store at the
      moment it became visible. */
  datatype Emitted = Emitted(event: Event, stored: Option<GoalCheckpoint>, memory: Memory, writes: nat)

  datatype GoalEffect = GoalEffect(task: nat, effect: Effect)

  /** Everything a run reads and writes. A write to the store may fail: `works` tells for each
      one whether it goes through. */
  datatype RunState = RunState(
    memory: Memory,
    goalClarification: Option<StepId>,
    invalidPlan: bool,
    hasStore: bool,
    stored: Option<GoalCheckpoint>,
    works: nat -> bool,
    writes: nat,
    emitted: seq<Emitted>,
    effects: seq<GoalEffect>,
    tick: nat)

  function Write(s: RunState, row: GoalCheckpoint): RunState {
    s.(stored := if s.works(s.writes) then Some(row) else s.stored, writes := s.writes + 1)
  }

  /** Saves a checkpoint; a failing write is logged and otherwise ignored. */
  function Save(s: RunState): RunState { if s.hasStore then Write(s, Checkpoint(s.memory)) else s }

  function Emit(s: RunState, e: Event): RunState {
    s.(emitted := s.emitted + [Emitted(e, s.stored, s.memory, s.writes)])
  }

  /** The state behind the next answer of the environment. */
  function Later(s: RunState): RunState { s.(tick := s.tick + 1) }

  function SetGoal(s: RunState, g: GoalStatus): RunState { s.(memory := s.memory.(goalState := g)) }

  function SetTask(s: RunState, i: nat, t: TaskStatus): RunState
    requires i < |s.memory.tasks|
  {
    s.(memory := s.memory.(tasks := s.memory.tasks[i := s.memory.tasks[i].(state := t)]))
  }

  function SetCurrent(s: RunState, i: nat): RunState { s.(memory := s.memory.(current := i)) }

  function ListCompleted(s: RunState, id: string): RunState {
    s.(memory := s.memory.(completedIds := s.memory.completedIds + [id]))
  }

  function MarkComplete(s: RunState): RunState { s.(memory := s.memory.(isComplete := true)) }

  function EndGoal(s: RunState, g: GoalStatus, e: Event): RunState { Emit(Save(SetGoal(s, g)), e) }

  function FailTask(s: RunState, i: nat): RunState
    requires i < |s.memory.tasks|
  {
    Emit(Emit(Save(SetGoal(SetTask(s, i, TaskFailed), GoalFailed)), TaskFailedEvent(i)), GoalFailedEvent)
  }

  function CompleteTask(s: RunState, i: nat): RunState
    requires i < |s.memory.tasks|
  {
    Emit(Save(ListCompleted(SetTask(s, i, TaskCompleted), s.memory.tasks[i].id)), TaskCompletedEvent(i))
  }

  function SuspendTask(s: RunState, i: nat): RunState
    requires i < |s.memory.tasks|
  {
    Emit(Save(SetGoal(SetTask(s, i, TaskWaiting), GoalWaiting)), WaitingEvent)
  }

  function StartTask(s: RunState, i: nat): RunState
    requires i < |s.memory.tasks|
  {
    Emit(Save(SetCurrent(SetTask(s, i, TaskExecuting), i)), TaskStartedEvent(i))
  }

  // ---- performing a task

  function Tag(i: nat, effects: seq<Effect>): (r: seq<GoalEffect>)
    ensures |r| == |effects|
    ensures forall j :: 0 <= j < |r| ==> r[j] == GoalEffect(i, effects[j])
  {
    seq(|effects|, j requires 0 <= j < |effects| => GoalEffect(i, effects[j]))
  }

  /** A task after its composite run. */
  function Worked(t: Task, left: TaskState): Task {
    t.(work := Composite(left.plan), actions := t.actions + left.actions)
  }

  /** The state after the composite run of task `i`. */
  function Absorb(s: RunState, i: nat, run: TaskRun): RunState
    requires i < |s.memory.tasks|
  {
    s.(memory := s.memory.(tasks := s.memory.tasks[i := Worked(s.memory.tasks[i], run.state)],
                           clarification := if run.state.clarification.Some? then run.state.clarification
                             else s.memory.clarification),
       effects := s.effects + Tag(i, run.state.effects),
       tick := run.state.tick)
  }

  function PlainEnd(o: Obs): TaskEnd {
    if o.strike == OuterDeadline then TornDown
    else
      match o.plain
      case PlainSucceeds => TaskSucceeded
      case PlainWaits => TaskWaits
      case PlainFails => TaskFails(None)
  }

  /** How task `i` ends and the state it leaves; a task without intents succeeds at once. */
  function Perform(s: RunState, i: nat, world: World): (TaskEnd, RunState)
    requires i < |s.memory.tasks|
  {
    match s.memory.tasks[i].work
    case Composite(plan) =>
      var run := RunTask(plan, world, s.tick);
      (run.end, Absorb(s, i, run))
    case Plain(n) =>
      if n == 0 then (TaskSucceeded, s)
      else (PlainEnd(world(s.tick)), Later(s))
  }

  // ---- running the goal

  predicate Skips(m: Memory, i: nat)
    requires i < |m.tasks|
  {
    m.tasks[i].state == TaskCompleted && m.tasks[i].id in m.completedIds
  }

  predicate AllCompleted(tasks: seq<Task>) { forall i :: 0 <= i < |tasks| ==> tasks[i].state == TaskCompleted }

  /** With no intents anywhere there is nothing left to check against the environment. */
  predicate NothingToCheck(tasks: seq<Task>) { forall i :: 0 <= i < |tasks| ==> tasks[i].work == Plain(0) }

  function VerifyGoal(s: RunState, world: World): RunState {
    var verifying := EndGoal(s, GoalVerifying, GoalVerifyingEvent);
    var o := world(verifying.tick);
    var looked := Later(verifying);
    if o.strike == OuterDeadline then EndGoal(looked, GoalFailed, GoalFailedEvent)
    else if AllCompleted(s.memory.tasks) && (o.goalVerified || NothingToCheck(s.memory.tasks)) then
      EndGoal(MarkComplete(looked), GoalCompleted, GoalCompletedEvent)
    else EndGoal(looked, GoalFailed, GoalFailedEvent)
  }

  datatype Flow = Continue(s: RunState) | Return(s: RunState)

  /** What the end of task `i` leads to. A torn-down task was hit by the task's deadline or by
      the goal's. */
  function Conclude(end: TaskEnd, s: RunState, i: nat, world: World): Flow
    requires i < |s.memory.tasks|
  {
    match end
    case TaskSucceeded => Flow.Continue(CompleteTask(s, i))
    case TaskWaits => Return(SuspendTask(s, i))
    case TaskFails(_) => Return(FailTask(s, i))
    case TornDown =>
      var looked := Later(s);
      if world(s.tick).goalDeadline then Return(EndGoal(looked, GoalFailed, GoalFailedEvent))
      else Return(FailTask(looked, i))
  }

  /** Performs task `i` and draws the conclusion. */
  function PerformAndConclude(s: RunState, i: nat, world: World): Flow
    requires i < |s.memory.tasks|
  {
    var (end, performed) := Perform(s, i, world);
    Conclude(end, performed, i, world)
  }

  /** Works on the started task `i`. */
  function WorkOn(s: RunState, i: nat, world: World): Flow
    requires i < |s.memory.tasks|
  {
    var looked := Later(s);
    if world(s.tick).cancel then Return(FailTask(looked, i)) else PerformAndConclude(looked, i, world)
  }

  /** One turn of the task loop. */
  function TaskTurn(s: RunState, i: nat, world: World): Flow
    requires i < |s.memory.tasks|
  {
    if Skips(s.memory, i) then Flow.Continue(s)
    else if world(s.tick).cancel then
      Return(EndGoal(Later(s), GoalCancelled, GoalCancelledEvent))
    else WorkOn(StartTask(Later(s), i), i, world)
  }

  lemma TurnKeepsTasks(s: RunState, i: nat, world: World)
    requires i < |s.memory.tasks|
    ensures TaskTurn(s, i, world).Continue? ==> |TaskTurn(s, i, world).s.memory.tasks| == |s.memory.tasks|
  {}

  function RunTasks(s: RunState, i: nat, world: World): RunState
    requires i <= |s.memory.tasks|
    decreases |s.memory.tasks| - i, 1
  {
    if i == |s.memory.tasks| then VerifyGoal(s, world) else TasksFrom(s, i, world)
  }

  /** The turn of task `i` and what comes after it. */
  function TasksFrom(s: RunState, i: nat, world: World): RunState
    requires i < |s.memory.tasks|
    decreases |s.memory.tasks| - i, 0
  {
    TurnKeepsTasks(s, i, world);
    match TaskTurn(s, i, world)
    case Return(end) => end
    case Continue(next) => RunTasks(next, i + 1, world)
  }

  lemma RunTasksUnfolds(s: RunState, i: nat, world: World)
    requires i < |s.memory.tasks|
    ensures var flow := TaskTurn(s, i, world);
            && (flow.Return? ==> RunTasks(s, i, world) == flow.s)
            && (flow.Continue? ==> |flow.s.memory.tasks| == |s.memory.tasks|
                                   && RunTasks(s, i, world) == RunTasks(flow.s, i + 1, world))
  {
    TurnKeepsTasks(s, i, world);
    assert RunTasks(s, i, world) == TasksFrom(s, i, world);
  }

  /** The two states in which a run only reports why it does not execute. */
  function Refuse(s: RunState): Option<RunState> {
    if s.memory.goalState == GoalWaiting && s.goalClarification.Some? then
      Some(Emit(Emit(Save(s.(memory := s.memory.(clarification := s.goalClarification))), GoalAcceptedEvent),
        WaitingEvent))
    else if s.memory.goalState == GoalFailed && s.invalidPlan then
      Some(Emit(Emit(Save(s), GoalAcceptedEvent), GoalFailedEvent))
    else None
  }

  function Run(s: RunState, world: World): RunState {
    if Refuse(s).Some? then Refuse(s).value
    else RunTasks(EndGoal(s, GoalExecuting, GoalAcceptedEvent), 0, world)
  }
}
