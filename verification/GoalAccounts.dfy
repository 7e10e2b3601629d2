/** What a run of a goal does to each of its tasks and to the outside world. */
module GoalAccounts {
  import opened Domain
  import opened SequenceSpec
  import opened SequenceTrace
  import opened CompositeTask
  import opened CompositeTaskFacts
  import opened CompositeTaskSafety
  import opened CompositeTaskTrace
  import opened Goals
  import opened GoalFacts

  /** The books of a composite task: what the run completed of it and what it still owes. */
  ghost predicate Books(before: Task, after: Task, new_: seq<ActionRecord>, owed: seq<Step>) {
    && after.work.Composite?
    && after.actions == before.actions + new_
    && CompletedPieces(new_) + Pieces(owed) == Pieces(StepsOf(before))
    && (forall a :: a in new_ ==> BackedRecord(a))
    && (owed == NotDone(StepsOf(after)) || owed == StepsOf(after))
    && (after.state == TaskCompleted && before.state != TaskCompleted ==> owed == [])
  }

  ghost predicate Account(before: Task, after: Task) {
    && after.id == before.id
    && (before.state == TaskCompleted ==> after == before)
    && (before.work.Plain? ==> after.work == before.work && after.actions == before.actions)
    && (before.work.Composite? ==> exists new_, owed :: Books(before, after, new_, owed))
  }

  /** An effect comes from an uncompleted composite task and is rightful there. */
  ghost predicate EffectOk(g: GoalEffect, m: Memory, world: World, start: nat) {
    && g.task < |m.tasks|
    && m.tasks[g.task].state != TaskCompleted
    && m.tasks[g.task].work.Composite?
    && Rightful(g.effect, Pieces(StepsOf(m.tasks[g.task])), world, start)
  }

  /** From `first` to `now`: what happened to the tasks before `upTo`, and that the others are
      as they were. */
  ghost predicate Kept(first: RunState, now: RunState, upTo: nat, world: World) {
    && |now.memory.tasks| == |first.memory.tasks| && upTo <= |first.memory.tasks|
    && (forall j :: 0 <= j < upTo ==> Account(first.memory.tasks[j], now.memory.tasks[j]))
    && (forall j :: upTo <= j < |first.memory.tasks| ==> now.memory.tasks[j] == first.memory.tasks[j])
    && first.tick <= now.tick
    && (forall g :: g in now.effects ==> g in first.effects || EffectOk(g, first.memory, world, first.tick))
  }

  lemma Untouched(t: Task)
    ensures Account(t, t)
  {
    if t.work.Composite? {
      assert t.actions == t.actions + [];
      assert CompletedPieces([]) + Pieces(StepsOf(t)) == Pieces(StepsOf(t));
      assert Books(t, t, [], StepsOf(t));
    }
  }

  /** All that a turn may change besides the event log. */
  ghost predicate OnlyTask(before: RunState, after: RunState, i: nat)
    requires i < |before.memory.tasks|
  {
    && |after.memory.tasks| == |before.memory.tasks|
    && after.memory.tasks == before.memory.tasks[i := after.memory.tasks[i]]
    && before.tick <= after.tick
  }

  /** The task's composite sequence was run from `tick` on. */
  ghost predicate Ran(before: Task, after: Task, effects: seq<GoalEffect>, i: nat, world: World, tick: nat) {
    && before.work.Composite?
    && var run := RunTask(before.work.plan, world, tick);
       && effects == Tag(i, run.state.effects)
       && after == before.(work := Composite(run.state.plan), actions := before.actions + run.state.actions,
                           state := after.state)
       && (after.state == TaskCompleted ==> run.end == TaskSucceeded)
  }

  /** Only the task's state was set. */
  ghost predicate OnlySet(before: Task, after: Task, effects: seq<GoalEffect>) {
    && effects == []
    && after == before.(state := after.state)
    && (after.state == TaskCompleted ==> before.work.Plain?)
  }

  /** How working on a task may leave it, with the actuations that came of it. */
  ghost predicate Worked(before: Task, after: Task, effects: seq<GoalEffect>, i: nat, world: World, tick: nat) {
    OnlySet(before, after, effects) || Ran(before, after, effects, i, world, tick)
  }

  lemma PerformShape(s: RunState, i: nat, world: World)
    requires i < |s.memory.tasks| && s.memory.tasks[i].state == TaskExecuting
    ensures var (end, t) := Perform(s, i, world);
            && OnlyTask(s, t, i)
            && t.memory.tasks[i].state == TaskExecuting
            && |s.effects| <= |t.effects| && t.effects[..|s.effects|] == s.effects
            && (s.memory.tasks[i].work.Composite? ==>
                  var run := RunTask(s.memory.tasks[i].work.plan, world, s.tick);
                  && end == run.end && t.effects[|s.effects|..] == Tag(i, run.state.effects)
                  && t.memory.tasks[i] ==
                     s.memory.tasks[i].(work := Composite(run.state.plan),
                                        actions := s.memory.tasks[i].actions + run.state.actions))
            && (s.memory.tasks[i].work.Plain? ==> t.memory.tasks[i] == s.memory.tasks[i] && t.effects == s.effects)
  {
    if s.memory.tasks[i].work.Composite? {
      TaskTicks(s.memory.tasks[i].work.plan, world, s.tick);
    }
  }

  lemma {:induction false} LoopTicks(s: TaskState, world: World)
    requires s.replans <= MaxReplans
    ensures s.tick <= Loop(s, world).state.tick
    decreases MaxReplans - s.replans
  {
    ExecutionIsLicensed(s.plan, NoEvaluator, world, s.tick);
    var out := Execute(s.plan, NoEvaluator, world, s.tick);
    if out.Returned? {
      ReactShape(s, out.result, world);
      var reaction := React(s, out.result, world);
      if reaction.Rerun? {
        LoopTicks(reaction.state, world);
      }
    }
  }

  lemma TaskTicks(plan: Sequence, world: World, tick: nat)
    ensures tick <= RunTask(plan, world, tick).state.tick
  {
    RunTaskIsLoop(plan, world, tick);
    LoopTicks(Begin(plan, tick), world);
  }

  /** Only the state of task `i` was set. */
  ghost predicate OnlyState(s: RunState, t: RunState, i: nat)
    requires i < |s.memory.tasks|
  {
    && OnlyTask(s, t, i) && t.effects == s.effects
    && t.memory.tasks[i] == s.memory.tasks[i].(state := t.memory.tasks[i].state)
  }

  lemma FailSets(s: RunState, i: nat)
    requires i < |s.memory.tasks|
    ensures OnlyState(s, FailTask(s, i), i) && FailTask(s, i).memory.tasks[i].state == TaskFailed
  {}

  lemma SuspendSets(s: RunState, i: nat)
    requires i < |s.memory.tasks|
    ensures OnlyState(s, SuspendTask(s, i), i) && SuspendTask(s, i).memory.tasks[i].state == TaskWaiting
  {}

  lemma EndGoalSets(s: RunState, i: nat, g: GoalStatus, e: Event)
    requires i < |s.memory.tasks|
    ensures OnlyState(s, EndGoal(s, g, e), i) && EndGoal(s, g, e).memory.tasks[i].state == s.memory.tasks[i].state
  {}

  lemma CompleteSets(s: RunState, i: nat)
    requires i < |s.memory.tasks|
    ensures OnlyState(s, CompleteTask(s, i), i)
  {}

  lemma SetsLater(s: RunState, t: RunState, i: nat)
    requires i < |s.memory.tasks| && OnlyState(Later(s), t, i)
    ensures OnlyState(s, t, i)
  {}

  /** Ending a task only sets its state. */
  lemma ConcludeSets(end: TaskEnd, s: RunState, i: nat, world: World)
    requires i < |s.memory.tasks|
    ensures var flow := Goals.Conclude(end, s, i, world);
            && OnlyState(s, flow.s, i)
            && (flow.s.memory.tasks[i].state == TaskCompleted ==>
               s.memory.tasks[i].state == TaskCompleted || end == TaskSucceeded)
  {
    match end
    case TaskSucceeded => CompleteSets(s, i);
    case TaskWaits => SuspendSets(s, i);
    case TaskFails(_) => FailSets(s, i);
    case TornDown =>
      if world(s.tick).goalDeadline {
        EndGoalSets(Later(s), i, GoalFailed, GoalFailedEvent);
      } else {
        FailSets(Later(s), i);
      }
      SetsLater(s, Goals.Conclude(end, s, i, world).s, i);
  }

  /** The state after working on task `i`, and the actuations. */
  ghost predicate Turned(s: RunState, t: RunState, i: nat, world: World)
    requires i < |s.memory.tasks|
  {
    && OnlyTask(s, t, i)
    && |s.effects| <= |t.effects| && t.effects[..|s.effects|] == s.effects
    && exists tick ::
         s.tick <= tick && Worked(s.memory.tasks[i], t.memory.tasks[i], t.effects[|s.effects|..], i, world, tick)
  }

  lemma PerformedShape(s: RunState, i: nat, world: World)
    requires i < |s.memory.tasks| && s.memory.tasks[i].state == TaskExecuting
    ensures Turned(s, PerformAndConclude(s, i, world).s, i, world)
  {
    PerformShape(s, i, world);
    var (end, performed) := Perform(s, i, world);
    ConcludeSets(end, performed, i, world);
    var t := Goals.Conclude(end, performed, i, world).s;
    assert Worked(s.memory.tasks[i], t.memory.tasks[i], t.effects[|s.effects|..], i, world, s.tick);
  }

  lemma AbandonedShape(s: RunState, i: nat, world: World)
    requires i < |s.memory.tasks|
    ensures Turned(s, FailTask(s, i), i, world)
  {
    var t := FailTask(s, i);
    assert Worked(s.memory.tasks[i], t.memory.tasks[i], t.effects[|s.effects|..], i, world, s.tick);
  }

  lemma TurnedLater(s: RunState, t: RunState, i: nat, world: World)
    requires i < |s.memory.tasks| && Turned(Later(s), t, i, world)
    ensures Turned(s, t, i, world)
  {}

  lemma WorkOnShape(s: RunState, i: nat, world: World)
    requires i < |s.memory.tasks| && s.memory.tasks[i].state == TaskExecuting
    ensures Turned(s, WorkOn(s, i, world).s, i, world)
  {
    var looked := Later(s);
    if world(s.tick).cancel {
      AbandonedShape(looked, i, world);
    } else {
      PerformedShape(looked, i, world);
    }
    TurnedLater(s, WorkOn(s, i, world).s, i, world);
  }

  /** What a task looks like after working on it, in terms of the task loop's guarantees. */
  lemma WorkedAccounts(before: Task, after: Task, effects: seq<GoalEffect>, i: nat, world: World, tick: nat)
    requires Worked(before.(state := TaskExecuting), after, effects, i, world, tick)
    requires TaskOk(before) && before.state != TaskCompleted
    ensures Account(before, after)
    ensures forall g :: g in effects ==>
            g.task == i && before.work.Composite? && Rightful(g.effect, Pieces(StepsOf(before)), world, tick)
  {
    if OnlySet(before.(state := TaskExecuting), after, effects) {
      if before.work.Composite? {
        assert before.actions + [] == before.actions && CompletedPieces([]) == [];
        assert Books(before, after, [], StepsOf(before));
      }
    } else {
      var plan := before.work.plan;
      RunTaskIsLoop(plan, world, tick);
      LoopConserves(Begin(plan, tick), world, Pieces(plan.steps));
      EffectsAreRightful(plan, world, tick);
      LoopBacked(Begin(plan, tick), world);
      var run := RunTask(plan, world, tick);
      forall g | g in effects ensures g.task == i && Rightful(g.effect, Pieces(plan.steps), world, tick) {
        assert g.effect in run.state.effects;
      }
      assert Books(before, after, run.state.actions, Owed(run));
    }
  }

  lemma StartShape(s: RunState, i: nat)
    requires i < |s.memory.tasks|
    ensures var t := StartTask(s, i);
            && t.memory.tasks == s.memory.tasks[i := s.memory.tasks[i].(state := TaskExecuting)]
            && t.effects == s.effects && t.tick == s.tick
  {}

  /** The run gave the task up before working on it. */
  ghost predicate Idle(s: RunState, t: RunState) {
    t.memory.tasks == s.memory.tasks && t.effects == s.effects && s.tick <= t.tick
  }

  lemma IdleTurn(s: RunState, i: nat, world: World)
    requires i < |s.memory.tasks| && (Skips(s.memory, i) || world(s.tick).cancel)
    ensures Idle(s, TaskTurn(s, i, world).s)
  {}

  lemma TurnIsWork(s: RunState, i: nat, world: World)
    requires i < |s.memory.tasks| && !Skips(s.memory, i) && !world(s.tick).cancel
    ensures TaskTurn(s, i, world) == WorkOn(StartTask(Later(s), i), i, world)
  {}

  lemma BusyTurn(s: RunState, i: nat, world: World)
    requires i < |s.memory.tasks|
    ensures var started := StartTask(Later(s), i);
            Turned(started, WorkOn(started, i, world).s, i, world)
  {
    StartShape(Later(s), i);
    WorkOnShape(StartTask(Later(s), i), i, world);
  }

  lemma TurnAccounts(s: RunState, i: nat, world: World)
    requires i < |s.memory.tasks| && MemoryOk(s.memory)
    ensures var t := TaskTurn(s, i, world).s;
            && OnlyTask(s, t, i)
            && Account(s.memory.tasks[i], t.memory.tasks[i])
            && (forall g :: g in t.effects ==> g in s.effects || (g.task == i && EffectOk(g, s.memory, world, s.tick)))
  {
    var t := TaskTurn(s, i, world).s;
    if Skips(s.memory, i) || world(s.tick).cancel {
      IdleTurn(s, i, world);
      Untouched(s.memory.tasks[i]);
    } else {
      TurnIsWork(s, i, world);
      BusyTurn(s, i, world);
      StartShape(Later(s), i);
      TurnedAccounts(s, StartTask(Later(s), i), t, i, world);
    }
  }

  lemma TurnedAccounts(s: RunState, started: RunState, t: RunState, i: nat, world: World)
    requires i < |s.memory.tasks| && s.memory.tasks[i].state != TaskCompleted && TaskOk(s.memory.tasks[i])
    requires started.memory.tasks == s.memory.tasks[i := s.memory.tasks[i].(state := TaskExecuting)]
    requires started.effects == s.effects && started.tick == s.tick + 1
    requires Turned(started, t, i, world)
    ensures OnlyTask(s, t, i)
    ensures Account(s.memory.tasks[i], t.memory.tasks[i])
    ensures forall g :: g in t.effects ==> g in s.effects || (g.task == i && EffectOk(g, s.memory, world, s.tick))
  {
    var fresh_ := t.effects[|s.effects|..];
    var tick :| started.tick <= tick && Worked(started.memory.tasks[i], t.memory.tasks[i], fresh_, i, world, tick);
    WorkedAccounts(s.memory.tasks[i], t.memory.tasks[i], fresh_, i, world, tick);
    assert t.effects == s.effects + fresh_;
    forall g | g in t.effects && g !in s.effects ensures g.task == i && EffectOk(g, s.memory, world, s.tick) {
      assert g in fresh_;
    }
  }

  lemma KeptNext(first: RunState, s: RunState, t: RunState, i: nat, world: World)
    requires i < |s.memory.tasks| && Kept(first, s, i, world) && OnlyTask(s, t, i)
    requires Account(s.memory.tasks[i], t.memory.tasks[i])
    requires forall g :: g in t.effects ==> g in s.effects || (g.task == i && EffectOk(g, s.memory, world, s.tick))
    ensures Kept(first, t, i + 1, world)
  {
    forall g | g in t.effects && g !in first.effects ensures EffectOk(g, first.memory, world, first.tick) {
      if g !in s.effects {
        assert first.memory.tasks[i] == s.memory.tasks[i];
      }
    }
  }

  lemma KeptRest(first: RunState, t: RunState, i: nat, world: World)
    requires Kept(first, t, i, world)
    ensures Kept(first, t, |first.memory.tasks|, world)
  {
    forall j | i <= j < |first.memory.tasks| ensures Account(first.memory.tasks[j], t.memory.tasks[j]) {
      Untouched(first.memory.tasks[j]);
    }
  }

  lemma TurnKept(first: RunState, s: RunState, i: nat, world: World)
    requires MemoryOk(s.memory) && i < |s.memory.tasks| && Kept(first, s, i, world)
    ensures Kept(first, TaskTurn(s, i, world).s, i + 1, world)
  {
    TurnAccounts(s, i, world);
    KeptNext(first, s, TaskTurn(s, i, world).s, i, world);
  }

  lemma {:induction false} RunTasksAccounts(first: RunState, s: RunState, i: nat, world: World)
    requires Opened(s) && Reached(s.memory, i) && Kept(first, s, i, world)
    ensures Kept(first, RunTasks(s, i, world), |first.memory.tasks|, world)
    decreases |s.memory.tasks| - i
  {
    if i == |s.memory.tasks| {
      assert Idle(s, VerifyGoal(s, world));
    } else {
      TurnEvents(s, i, world);
      TurnKept(first, s, i, world);
      RunTasksUnfolds(s, i, world);
      var flow := TaskTurn(s, i, world);
      assert FlowOk(flow, i);
      if flow.Continue? {
        RunTasksAccounts(first, flow.s, i + 1, world);
      } else {
        KeptRest(first, flow.s, i + 1, world);
      }
    }
  }

  /** Every task is accounted for, and every effect of `t` is rightful. */
  ghost predicate AllAccounted(s: RunState, t: RunState, world: World) {
    && |t.memory.tasks| == |s.memory.tasks|
    && (forall j :: 0 <= j < |s.memory.tasks| ==> Account(s.memory.tasks[j], t.memory.tasks[j]))
    && (forall g :: g in t.effects ==> EffectOk(g, s.memory, world, s.tick))
  }

  lemma IdleAccounts(s: RunState, t: RunState, world: World)
    requires t.memory.tasks == s.memory.tasks && t.effects == []
    ensures AllAccounted(s, t, world)
  {
    forall j | 0 <= j < |s.memory.tasks| ensures Account(s.memory.tasks[j], s.memory.tasks[j]) {
      Untouched(s.memory.tasks[j]);
    }
  }

  lemma KeptAccounts(s: RunState, begun: RunState, t: RunState, world: World)
    requires Kept(begun, t, |begun.memory.tasks|, world)
    requires begun.memory.tasks == s.memory.tasks && begun.tick == s.tick && begun.effects == []
    ensures AllAccounted(s, t, world)
  {
    forall g | g in t.effects ensures EffectOk(g, s.memory, world, s.tick) {
      assert EffectOk(g, begun.memory, world, begun.tick);
    }
  }

  lemma OpeningOk(s: RunState)
    requires MemoryOk(s.memory) && s.emitted == []
    ensures var begun := EndGoal(s, GoalExecuting, GoalAcceptedEvent);
            && Opened(begun) && Reached(begun.memory, 0) && begun.memory.tasks == s.memory.tasks
            && begun.tick == s.tick && begun.effects == s.effects
  {}

  /** Conservation and rightfulness over a whole goal run: every task is accounted for, a task
      that had been completed is left alone, a composite task that becomes completed owes
      nothing, and every actuation comes from an uncompleted task, was started with the cancel
      event unset and belongs to a step that needs no permission. */
  lemma GoalIsAccounted(s: RunState, world: World)
    requires MemoryOk(s.memory) && s.emitted == [] && s.effects == []
    ensures AllAccounted(s, Goals.Run(s, world), world)
  {
    if Refuse(s).Some? {
      IdleAccounts(s, Goals.Run(s, world), world);
    } else {
      var begun := EndGoal(s, GoalExecuting, GoalAcceptedEvent);
      OpeningOk(s);
      RunTasksAccounts(begun, begun, 0, world);
      KeptAccounts(s, begun, RunTasks(begun, 0, world), world);
    }
  }

  /** The run completed every step of the task's plan, in order, each entry backed by the verdict
      it needs. */
  ghost predicate FullyDone(before: Task, after: Task, new_: seq<ActionRecord>) {
    && after.actions == before.actions + new_
    && CompletedPieces(new_) == Pieces(StepsOf(before))
    && forall a :: a in new_ ==> BackedRecord(a)
  }

  lemma CompletedIsFullyDone(before: Task, after: Task)
    requires Account(before, after) && before.work.Composite?
    requires before.state != TaskCompleted && after.state == TaskCompleted
    ensures exists new_ :: FullyDone(before, after, new_)
  {
    var new_, owed :| Books(before, after, new_, owed);
    assert Pieces([]) == [];
    assert FullyDone(before, after, new_);
  }

  /** A goal reported complete has completed every step of every plan it was given: each
      composite task either had been completed before, or all its steps were completed, in
      order, by this run, on the evidence they need. */
  lemma CompletedGoalIsTruthful(s: RunState, world: World)
    requires MemoryOk(s.memory) && s.emitted == [] && s.effects == []
    ensures var t := Goals.Run(s, world);
            && |t.emitted| > 0 && |t.memory.tasks| == |s.memory.tasks|
            && (t.emitted[|t.emitted| - 1].event == GoalCompletedEvent ==>
              forall j :: (0 <= j < |s.memory.tasks| && s.memory.tasks[j].state != TaskCompleted
                           && s.memory.tasks[j].work.Composite?) ==>
                exists new_ :: FullyDone(s.memory.tasks[j], t.memory.tasks[j], new_))
  {
    GoalIsAccounted(s, world);
    RunStream(s, world);
    var t := Goals.Run(s, world);
    var last := t.emitted[|t.emitted| - 1];
    if last.event == GoalCompletedEvent {
      assert EntryOk(last, t.hasStore, t.works) && last.memory == t.memory;
      forall j | 0 <= j < |s.memory.tasks| && s.memory.tasks[j].state != TaskCompleted
        && s.memory.tasks[j].work.Composite?
        ensures exists new_ :: FullyDone(s.memory.tasks[j], t.memory.tasks[j], new_)
      {
        CompletedIsFullyDone(s.memory.tasks[j], t.memory.tasks[j]);
      }
    }
  }
}
