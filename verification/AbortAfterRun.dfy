/** A goal run and the abort that follows it: which compensations the abort calls a second time, and
    which completed work it does not see. */
module AbortAfterRun {
  import opened Domain
  import opened SequenceSpec
  import opened CompositeTask
  import opened CompositeTaskSafety
  import opened Goals
  import opened GoalFacts
  import opened GoalAccounts
  import opened Schedules
  import opened NetEffect
  import opened UndoOutcome
  import opened LastRun
  import opened LostWork
  import opened TaskTales
  import opened Rollback

  // ---- compensations called twice

  /** The call is for a step whose compensation the run had carried out. */
  ghost predicate Again(c: Call, effects: seq<GoalEffect>) {
    exists g :: g in effects && g.task == c.task && g.effect.Undo? && Root(g.effect.id) == Root(c.id)
  }

  /** The last run of task `i` started the compensation of the step that memory now holds at `j`,
      told from the answers it read. */
  predicate StartedUndo(s: RunState, world: World, i: nat, j: nat)
    requires i < |s.memory.tasks|
  {
    var start := StartOf(s, i, world);
    && start.Some? && s.memory.tasks[i].work.Composite?
    && var from := LastStartOf(s.memory.tasks[i].work.plan, world, start.value);
       RunStarts(from.plan, world, from.tick, j)
  }

  lemma UndoneInGoal(s: RunState, t: RunState, i: nat, start: nat, world: World, root: StepId)
    requires i < |s.memory.tasks| && Told(s, t, i, Some(start), world) && s.effects == []
    ensures Undone(RunTask(s.memory.tasks[i].work.plan, world, start).state.effects, root) <==>
            exists g :: g in t.effects && g.task == i && g.effect.Undo? && Root(g.effect.id) == root
  {
    var effects := RunTask(s.memory.tasks[i].work.plan, world, start).state.effects;
    if Undone(effects, root) {
      var a :| 0 <= a < |effects| && effects[a].Undo? && Root(effects[a].id) == root;
      assert GoalEffect(i, effects[a]) in t.effects;
    }
    if g :| g in t.effects && g.task == i && g.effect.Undo? && Root(g.effect.id) == root {
      assert GoalEffect(i, g.effect) in t.effects && g.effect in effects;
    }
  }

  lemma UntoldHasNoEffects(s: RunState, t: RunState, i: nat, world: World)
    requires i < |s.memory.tasks| && Told(s, t, i, None, world) && s.effects == []
    ensures forall g :: g in t.effects ==> g.task != i
  {
    forall g | g in t.effects ensures g.task != i {
      assert g == GoalEffect(g.task, g.effect);
    }
  }

  /** A step in memory was undone by the run exactly when the task's last run started it. */
  lemma StepUndoneExactly(s: RunState, world: World, i: nat, j: nat)
    requires Ready(s) && i < |s.memory.tasks|
    requires i < |Goals.Run(s, world).memory.tasks| && j < |StepsOf(Goals.Run(s, world).memory.tasks[i])|
    ensures var t := Goals.Run(s, world);
            Again(Call(i, StepsOf(t.memory.tasks[i])[j].id), t.effects) <==> StartedUndo(s, world, i, j)
  {
    var t := Goals.Run(s, world);
    RunTold(s, world, i);
    var id := StepsOf(t.memory.tasks[i])[j].id;
    var start := StartOf(s, i, world);
    if start.Some? {
      assert TaskOk(s.memory.tasks[i]);
      UndoneInGoal(s, t, i, start.value, world, Root(id));
      MemoryUndoneExactly(s.memory.tasks[i].work.plan, world, start.value, j);
    } else {
      UntoldHasNoEffects(s, t, i, world);
    }
  }

  /** Step `j` of task `i` is in memory, accepted, with a compensation that the run had started. */
  predicate UndoneAndCalled(s: RunState, t: RunState, world: World, i: nat, j: nat) {
    && i < |s.memory.tasks| && AcceptedAt(t.memory.tasks, i, j)
    && StepsOf(t.memory.tasks[i])[j].spec.compensation.Some? && StartedUndo(s, world, i, j)
  }

  /** A goal run followed by an abort: some compensation is called a second time exactly when memory
      holds an accepted step with a compensation that the task's last run had started, recorded or
      cut short by a deadline. */
  lemma AbortRepeatsExactly(s: RunState, world: World)
    requires Ready(s)
    ensures var t := Goals.Run(s, world);
            (exists c :: c in Abort(t, world).1.calls && Again(c, t.effects)) <==>
            (exists i: nat, j: nat :: UndoneAndCalled(s, t, world, i, j))
  {
    var t := Goals.Run(s, world);
    if c :| c in Abort(t, world).1.calls && Again(c, t.effects) {
      AbortCallsExactly(t, world, c);
      var j: nat :| AcceptedAt(t.memory.tasks, c.task, j) && StepsOf(t.memory.tasks[c.task])[j].spec.compensation.Some?
                    && StepsOf(t.memory.tasks[c.task])[j].id == c.id;
      GoalIsAccounted(s, world);
      StepUndoneExactly(s, world, c.task, j);
      assert UndoneAndCalled(s, t, world, c.task, j);
    }
    if i: nat, j: nat :| UndoneAndCalled(s, t, world, i, j) {
      var c := Call(i, StepsOf(t.memory.tasks[i])[j].id);
      StepUndoneExactly(s, world, i, j);
      AbortCallsExactly(t, world, c);
    }
  }

  /** Of such a step the record tells nothing exactly when an enclosing deadline tore the run down or
      a deadline struck in the very call of the compensation. */
  lemma RecordTellsExactly(s: RunState, world: World, i: nat, j: nat)
    requires Ready(s) && UndoneAndCalled(s, Goals.Run(s, world), world, i, j)
    ensures var step, plan := StepsOf(Goals.Run(s, world).memory.tasks[i])[j], s.memory.tasks[i].work.plan;
            var start := StartOf(s, i, world).value;
            var from := LastStartOf(plan, world, start);
            var f := FirstFailure(from.plan, world, 0, from.tick).value;
            step.undo.executed <==>
              RunTask(plan, world, start).end != TornDown && world(CallTick(from.plan.steps, f, j)).strike == NoStrike
  {
    RunTold(s, world, i);
    assert TaskOk(s.memory.tasks[i]);
    MemoryUndoneExactly(s.memory.tasks[i].work.plan, world, StartOf(s, i, world).value, j);
  }

  // ---- reachable, on the record and off it

  lemma OneTaskStart(s: RunState, world: World)
    requires |s.memory.tasks| == 1 && s.memory.tasks[0].work.Composite? && s.memory.tasks[0].state != TaskCompleted
    requires Refuse(s).None? && !world(s.tick).cancel && !world(s.tick + 1).cancel
    ensures StartOf(s, 0, world) == Some(s.tick + 2)
  {}

  lemma KeptIsCalled(s: RunState, t: RunState, plan: Sequence, run: TaskRun, j: nat, onRecord: bool, world: World)
    requires |s.memory.tasks| == 1 && s.memory.tasks[0].work == Composite(plan) && s.effects == []
    requires j < |plan.steps| && Undoable(plan.steps[j]) && KeepsUndone(run, plan, j, onRecord)
    requires run == RunTask(plan, world, s.tick + 2) && Told(s, t, 0, Some(s.tick + 2), world)
    ensures var c := Call(0, plan.steps[j].id);
            && c in Abort(t, world).1.calls && Again(c, t.effects)
            && StepsOf(t.memory.tasks[0]) == run.state.plan.steps
  {
    var c := Call(0, plan.steps[j].id);
    AbortCallsExactly(t, world, c);
    assert AcceptedAt(t.memory.tasks, 0, j);
    UndoneInGoal(s, t, 0, s.tick + 2, world, Root(plan.steps[j].id));
  }

  /** For every goal of one task whose plan stops on failure, may compensate, needs no permission
      and can undo a step before its last: in some world the run fails after undoing that step, and
      aborting the goal undoes it a second time; with the first time on record, or without. */
  lemma AbortUndoesTwice(s: RunState, j: nat, onRecord: bool) returns (world: World)
    requires |s.memory.tasks| == 1 && s.memory.tasks[0].work.Composite? && s.memory.tasks[0].state != TaskCompleted
    requires Refuse(s).None? && s.effects == []
    requires var plan := s.memory.tasks[0].work.plan;
      && plan.stopOnFailure && plan.allowCompensation && ClearFrom(plan.steps, 0)
      && j < |plan.steps| - 1 && Undoable(plan.steps[j])
    ensures var t, c := Goals.Run(s, world), Call(0, s.memory.tasks[0].work.plan.steps[j].id);
            && c in Abort(t, world).1.calls && Again(c, t.effects)
            && |t.memory.tasks| == 1 && j < |StepsOf(t.memory.tasks[0])|
            && StepsOf(t.memory.tasks[0])[j].undo.executed == onRecord
  {
    var plan, start := s.memory.tasks[0].work.plan, s.tick + 2;
    if onRecord {
      world := FailingAt(start, j + 1, Some(ToolError("TIMEOUT")));
      TaskKeepsUndoneStep(plan, start, j);
    } else {
      world := CutShortAt(start, j + 1);
      TaskLosesRecord(plan, start, j);
    }
    OneTaskStart(s, world);
    RunTold(s, world, 0);
    KeptIsCalled(s, Goals.Run(s, world), plan, RunTask(plan, world, start), j, onRecord, world);
  }

  // ---- work the abort does not see

  /** The abort visits no step with this identity. */
  ghost predicate Unvisited(tasks: seq<Task>, root: StepId) {
    forall v :: v in AllAccepted(tasks) ==> Root(v.step.id) != root
  }

  lemma InvisibleIsUnvisited(tasks: seq<Task>, root: StepId)
    requires |tasks| == 1 && !Visible(StepsOf(tasks[0]), root)
    ensures Unvisited(tasks, root)
  {
    forall v | v in AllAccepted(tasks) ensures Root(v.step.id) != root {
      AllAcceptedMeaning(tasks, v);
    }
  }

  /** For every goal of one task whose plan needs no permission, and every step before some later
      one: in some world the run fails with that step completed and verified in the task's log, and
      the abort neither undoes it nor lists it as unresolved. */
  lemma AbortMissesVerifiedStep(s: RunState, at: nat, j: nat) returns (world: World)
    requires |s.memory.tasks| == 1 && s.memory.tasks[0].work.Composite? && s.memory.tasks[0].state != TaskCompleted
    requires Refuse(s).None? && s.memory.tasks[0].actions == []
    requires var plan := s.memory.tasks[0].work.plan;
      && plan.stopOnFailure && ClearFrom(plan.steps, 0) && WellIdentified(plan.steps)
      && j < at < |plan.steps| && !Injected(plan.steps[j].id)
    ensures var t, root := Goals.Run(s, world), Root(s.memory.tasks[0].work.plan.steps[j].id);
            && |t.memory.tasks| == 1 && InLog(t.memory.tasks[0].actions, root)
            && Reports(Abort(t, world).1, AllAccepted(t.memory.tasks), world, t.tick) && Unvisited(t.memory.tasks, root)
  {
    var plan, start := s.memory.tasks[0].work.plan, s.tick + 2;
    world := FailingFrom(start, at);
    OneTaskStart(s, world);
    RunTold(s, world, 0);
    VerifiedStepDisappears(plan, start, at, j);
    var t, run := Goals.Run(s, world), RunTask(plan, world, start);
    assert [] + run.state.actions == run.state.actions;
    InvisibleIsUnvisited(t.memory.tasks, Root(plan.steps[j].id));
    AbortReports(t, world);
  }

  /** Nor does an abort see a step that was verified without an accepted actuation: for every such
      goal and step some run fails in its one sequence run, with memory and log holding the step as
      verified, and the abort neither undoes it nor lists it. */
  lemma AbortMissesUnacceptedStep(s: RunState, at: nat, j: nat) returns (world: World)
    requires |s.memory.tasks| == 1 && s.memory.tasks[0].work.Composite? && s.memory.tasks[0].state != TaskCompleted
    requires Refuse(s).None? && s.memory.tasks[0].actions == []
    requires var plan := s.memory.tasks[0].work.plan;
      && plan.stopOnFailure && ClearFrom(plan.steps, 0) && WellIdentified(plan.steps)
      && j < at < |plan.steps| && !Injected(plan.steps[j].id)
    ensures var t, root := Goals.Run(s, world), Root(s.memory.tasks[0].work.plan.steps[j].id);
            && |t.memory.tasks| == 1 && InLog(t.memory.tasks[0].actions, root)
            && j < |StepsOf(t.memory.tasks[0])| && IsVerified(StepsOf(t.memory.tasks[0])[j])
            && Root(StepsOf(t.memory.tasks[0])[j].id) == root
            && Reports(Abort(t, world).1, AllAccepted(t.memory.tasks), world, t.tick) && Unvisited(t.memory.tasks, root)
  {
    var plan, start := s.memory.tasks[0].work.plan, s.tick + 2;
    world := UnacceptedAt(start, j, at);
    OneTaskStart(s, world);
    RunTold(s, world, 0);
    UnacceptedStepIsUnseen(plan, start, at, j);
    var t, run := Goals.Run(s, world), RunTask(plan, world, start);
    assert [] + run.state.actions == run.state.actions;
    InvisibleIsUnvisited(t.memory.tasks, Root(plan.steps[j].id));
    AbortReports(t, world);
  }
}
