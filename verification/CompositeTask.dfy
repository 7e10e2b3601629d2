/** One composite task: sequence runs with bounded adaptive replanning in between. */
module CompositeTask {
  import opened Domain
  import opened Recovery
  import opened SequenceSpec
  import Compiler
  import ActionExecutor

  /** The entry a task keeps of each step of each sequence run. */
  datatype ActionRecord =
    ActionRecord(id: StepId, spec: StepSpec, index: nat, status: StepStatus, verdict: Option<Verdict>)

  datatype TaskEnd = TaskSucceeded | TaskWaits | TaskFails(failure: Option<FailureClass>) | TornDown

  /** What the task loop carries: the current sequence, the task's action log, the compensations
      its runs recorded, and what it did to the outside world. */
  datatype TaskState = TaskState(
    plan: Sequence,
    replans: nat,
    runs: nat,
    actions: seq<ActionRecord>,
    undone: seq<StepId>,
    clarification: Option<StepId>,
    effects: seq<Effect>,
    tick: nat)

  datatype TaskRun = TaskRun(end: TaskEnd, state: TaskState)

  const MaxReplans: nat := 2

  function Records(steps: seq<Step>): (r: seq<ActionRecord>)
    ensures |r| == |steps|
  {
    if steps == [] then []
    else
      [ActionRecord(steps[0].id, steps[0].spec, steps[0].index, steps[0].status, steps[0].verdict)]
      + Records(steps[1..])
  }

  /** The identities of the steps at the given indices; every index a result records is one of
      its steps. */
  function UndoneIds(steps: seq<Step>, undone: seq<nat>): (r: seq<StepId>)
    ensures |r| == |undone|
    ensures forall j :: 0 <= j < |undone| && undone[j] < |steps| ==> r[j] == Root(steps[undone[j]].id)
  {
    seq(|undone|, j requires 0 <= j < |undone| => if undone[j] < |steps| then Root(steps[undone[j]].id) else Refocus)
  }

  predicate IsTimeout(code: Option<ErrorCode>) {
    code == Some(TimeoutError) || code == Some(ToolError("TIMEOUT"))
  }

  /** The state once a sequence run returned: steps written back, actions logged. */
  function Logged(s: TaskState, r: Progress): TaskState {
    s.(plan := s.plan.(steps := r.steps), runs := s.runs + 1,
       actions := s.actions + Records(r.steps), undone := s.undone + UndoneIds(r.steps, r.undone),
       effects := s.effects + r.effects, tick := r.tick)
  }

  function FailedId(r: Progress): Option<StepId> {
    if r.failedIndex.Some? && r.failedIndex.value < |r.steps| then Some(r.steps[r.failedIndex.value].id) else None
  }

  datatype Next = Stop(run: TaskRun) | Rerun(state: TaskState)

  /** What the task loop does with a sequence result. */
  function React(s: TaskState, r: Progress, world: World): Next {
    var logged := Logged(s, r);
    if r.status == Success then Stop(TaskRun(TaskSucceeded, logged))
    else if r.status == PermissionDenied then
      Stop(TaskRun(TaskWaits, logged.(clarification := FailedId(r))))
    else
      var looked := logged.(tick := logged.tick + 1);
      if world(r.tick).cancel || r.status == CancelledRun then Stop(TaskRun(TaskFails(None), looked))
      else if IsTimeout(r.error) then Stop(TaskRun(TaskFails(Some(NavigationTimeout)), looked))
      else
        var strategy := DetermineStrategy(Some(VerificationFailed));
        if GivesUp(strategy) then
          Stop(TaskRun(if strategy == WaitForUser then TaskWaits else TaskFails(Some(VerificationFailed)), looked))
        else if s.replans < MaxReplans && r.failedIndex.Some? then
          var repaired := Compiler.Replan(looked.plan, r.failedIndex.value, Some(strategy));
          if repaired.Some? then Rerun(looked.(plan := repaired.value, replans := s.replans + 1))
          else Stop(TaskRun(TaskFails(Some(VerificationFailed)), looked.(replans := s.replans + 1)))
        else Stop(TaskRun(TaskFails(Some(VerificationFailed)), looked))
  }

  /** The task loop; no evaluator is passed to the executor. */
  function Loop(s: TaskState, world: World): TaskRun
    requires s.replans <= MaxReplans
    decreases 2 * (MaxReplans - s.replans) + 1
  {
    match Execute(s.plan, NoEvaluator, world, s.tick)
    case Raised(effects, tick) =>
      TaskRun(TornDown, s.(runs := s.runs + 1, effects := s.effects + effects, tick := tick))
    case Returned(r) => Follow(React(s, r, world), world)
  }

  /** Acts on a decision of the task loop. */
  function Follow(next: Next, world: World): TaskRun
    requires next.Rerun? ==> next.state.replans <= MaxReplans
    decreases if next.Rerun? then 2 * (MaxReplans - next.state.replans) + 2 else 0
  {
    match next
    case Stop(run) => run
    case Rerun(s) => Loop(s, world)
  }

  function Begin(plan: Sequence, tick: nat): TaskState { TaskState(plan, 0, 0, [], [], None, [], tick) }

  function RunTask(plan: Sequence, world: World, tick: nat): TaskRun { Follow(Rerun(Begin(plan, tick)), world) }

  lemma RunTaskIsLoop(plan: Sequence, world: World, tick: nat)
    ensures RunTask(plan, world, tick) == Loop(Begin(plan, tick), world)
  {}

  lemma LoopFollows(s: TaskState, r: Progress, world: World)
    requires s.replans <= MaxReplans && Execute(s.plan, NoEvaluator, world, s.tick) == Returned(r)
    ensures React(s, r, world).Stop? ==> Loop(s, world) == React(s, r, world).run
    ensures React(s, r, world).Rerun? ==>
              React(s, r, world).state.replans <= MaxReplans && Loop(s, world) == Loop(React(s, r, world).state, world)
  {
    assert Loop(s, world) == Follow(React(s, r, world), world);
  }

  method ExecuteTask(plan: Sequence, world: World, tick: nat) returns (run: TaskRun)
    ensures run == RunTask(plan, world, tick)
  {
    var state := Begin(plan, tick);
    RunTaskIsLoop(plan, world, tick);
    while true
      invariant state.replans <= MaxReplans
      invariant Loop(state, world) == RunTask(plan, world, tick)
      decreases MaxReplans - state.replans
    {
      var outcome := ActionExecutor.ExecuteSequence(state.plan, NoEvaluator, world, state.tick);
      if outcome.Raised? {
        return TaskRun(TornDown,
          state.(runs := state.runs + 1, effects := state.effects + outcome.effects, tick := outcome.tick));
      }
      var r := outcome.result;
      ghost var reaction := React(state, r, world);
      LoopFollows(state, r, world);
      var attempt := state.replans;
      state := Logged(state, r);
      if r.status == Success {
        return TaskRun(TaskSucceeded, state);
      } else if r.status == PermissionDenied {
        return TaskRun(TaskWaits, state.(clarification := FailedId(r)));
      }
      var cancelled := world(state.tick).cancel;
      state := state.(tick := state.tick + 1);
      if cancelled || r.status == CancelledRun {
        return TaskRun(TaskFails(None), state);
      }
      if IsTimeout(r.error) {
        return TaskRun(TaskFails(Some(NavigationTimeout)), state);
      }
      var strategy := DetermineStrategy(Some(VerificationFailed));
      if GivesUp(strategy) {
        return TaskRun(if strategy == WaitForUser then TaskWaits else TaskFails(Some(VerificationFailed)), state);
      }
      if attempt < MaxReplans && r.failedIndex.Some? {
        state := state.(replans := attempt + 1);
        var repaired := Compiler.ReplanRemainder(state.plan, r.failedIndex.value, Some(strategy));
        if repaired.Some? {
          state := state.(plan := repaired.value);
          assert reaction == Rerun(state);
          continue;
        }
      }
      return TaskRun(TaskFails(Some(VerificationFailed)), state);
    }
  }
}
