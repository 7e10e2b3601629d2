/** What a goal run makes of one task: which run of its sequence, from which tick, left it so. */
module TaskTales {
  import opened Domain
  import opened CompositeTask
  import opened CompositeTaskSafety
  import opened Goals
  import opened GoalFacts
  import opened GoalAccounts
  import opened CancelledGoal

  /** A goal that a run may be given: coherent, its steps uniquely identified, nothing done yet. */
  ghost predicate Ready(s: RunState) {
    && MemoryOk(s.memory) && s.emitted == [] && s.effects == []
    && forall i :: 0 <= i < |s.memory.tasks| ==> WellIdentified(StepsOf(s.memory.tasks[i]))
  }

  /** Where the sequence of task `k` starts to run in the turn whose head is this state, if it does. */
  function RunsFrom(head: RunState, k: nat, world: World): Option<nat>
    requires k < |head.memory.tasks|
  {
    if Skips(head.memory, k) || world(head.tick).cancel || world(head.tick + 1).cancel
       || head.memory.tasks[k].work.Plain? then None
    else Some(head.tick + 2)
  }

  /** The same from the state in which the loop enters task `i`. */
  function RunsBehind(s: RunState, i: nat, k: nat, world: World): Option<nat>
    requires i <= k < |s.memory.tasks|
  {
    var head := HeadAt(s, i, k, world);
    if head.Some? && k < |head.value.memory.tasks| then RunsFrom(head.value, k, world) else None
  }

  /** Where the sequence of task `k` starts to run in a whole goal run, if it does. */
  function StartOf(s: RunState, k: nat, world: World): Option<nat>
    requires k < |s.memory.tasks|
  {
    if Refuse(s).Some? then None else RunsBehind(Opening(s), 0, k, world)
  }

  /** From `s` to `t` the sequence of task `k` ran from `start` on, or did not run. */
  ghost predicate Told(s: RunState, t: RunState, k: nat, start: Option<nat>, world: World)
    requires k < |s.memory.tasks|
  {
    && |t.memory.tasks| == |s.memory.tasks|
    && var before, after := s.memory.tasks[k], t.memory.tasks[k];
       match start
       case None =>
         && after.work == before.work && after.actions == before.actions
         && (forall e :: GoalEffect(k, e) in t.effects <==> GoalEffect(k, e) in s.effects)
       case Some(tick) =>
         && before.work.Composite?
         && var run := RunTask(before.work.plan, world, tick);
            && after.work == Composite(run.state.plan) && after.actions == before.actions + run.state.actions
            && (forall e :: GoalEffect(k, e) in t.effects <==> GoalEffect(k, e) in s.effects || e in run.state.effects)
  }

  lemma ToldLater(s: RunState, u: RunState, t: RunState, k: nat, start: Option<nat>, world: World)
    requires k < |s.memory.tasks| && Told(s, u, k, None, world) && Told(u, t, k, start, world)
    ensures Told(s, t, k, start, world)
  {}

  lemma ToldBefore(s: RunState, u: RunState, t: RunState, k: nat, start: Option<nat>, world: World)
    requires k < |s.memory.tasks| && Told(s, u, k, start, world) && Told(u, t, k, None, world)
    ensures Told(s, t, k, start, world)
  {}

  lemma TagMeaning(before: seq<GoalEffect>, i: nat, effects: seq<Effect>, g: GoalEffect)
    ensures g in before + Tag(i, effects) <==> g in before || (g.task == i && g.effect in effects)
  {
    var all, tagged := before + Tag(i, effects), Tag(i, effects);
    if g.task == i && g.effect in effects {
      var j :| 0 <= j < |effects| && effects[j] == g.effect;
      assert tagged[j] == g;
    }
  }

  /** Ending a task leaves all sequences and effects alone. */
  lemma ConcludeTold(end: TaskEnd, s: RunState, i: nat, world: World, k: nat)
    requires i < |s.memory.tasks| && k < |s.memory.tasks|
    ensures Told(s, Goals.Conclude(end, s, i, world).s, k, None, world)
  {
    ConcludeSets(end, s, i, world);
  }

  lemma PerformTold(s: RunState, i: nat, world: World, k: nat)
    requires i < |s.memory.tasks| && k < |s.memory.tasks|
    ensures Told(s, Perform(s, i, world).1, k,
                 if k == i && s.memory.tasks[i].work.Composite? then Some(s.tick) else None, world)
  {
    if s.memory.tasks[i].work.Composite? {
      var run := RunTask(s.memory.tasks[i].work.plan, world, s.tick);
      forall e ensures GoalEffect(k, e) in Perform(s, i, world).1.effects
                  <==> GoalEffect(k, e) in s.effects || (k == i && e in run.state.effects) {
        TagMeaning(s.effects, i, run.state.effects, GoalEffect(k, e));
      }
    }
  }

  lemma PerformAndConcludeTold(s: RunState, i: nat, world: World, k: nat)
    requires i < |s.memory.tasks| && k < |s.memory.tasks|
    ensures Told(s, PerformAndConclude(s, i, world).s, k,
                 if k == i && s.memory.tasks[i].work.Composite? then Some(s.tick) else None, world)
  {
    var (end, performed) := Perform(s, i, world);
    PerformTold(s, i, world, k);
    ConcludeTold(end, performed, i, world, k);
    ToldBefore(s, performed, Goals.Conclude(end, performed, i, world).s, k,
               if k == i && s.memory.tasks[i].work.Composite? then Some(s.tick) else None, world);
  }

  lemma SetTold(s: RunState, t: RunState, i: nat, k: nat, world: World)
    requires i < |s.memory.tasks| && k < |s.memory.tasks| && OnlyState(s, t, i)
    ensures Told(s, t, k, None, world)
  {}

  lemma WorkTold(s: RunState, i: nat, world: World, k: nat)
    requires i < |s.memory.tasks| && k < |s.memory.tasks|
    ensures Told(s, WorkOn(s, i, world).s, k,
                 if k == i && s.memory.tasks[i].work.Composite? && !world(s.tick).cancel then Some(s.tick + 1)
                   else None, world)
  {
    if world(s.tick).cancel {
      FailSets(Later(s), i);
      SetsLater(s, FailTask(Later(s), i), i);
      SetTold(s, FailTask(Later(s), i), i, k, world);
    } else {
      PerformAndConcludeTold(Later(s), i, world, k);
      ToldLater(s, Later(s), PerformAndConclude(Later(s), i, world).s, k,
                if k == i && s.memory.tasks[i].work.Composite? then Some(s.tick + 1) else None, world);
    }
  }

  lemma StartTold(s: RunState, i: nat, k: nat, world: World)
    requires i < |s.memory.tasks| && k < |s.memory.tasks|
    ensures Told(s, StartTask(s, i), k, None, world)
  {
    StartShape(s, i);
  }

  lemma BusyTold(s: RunState, i: nat, world: World, k: nat)
    requires i < |s.memory.tasks| && k < |s.memory.tasks|
    ensures Told(s, WorkOn(StartTask(s, i), i, world).s, k,
                 if k == i && s.memory.tasks[i].work.Composite? && !world(s.tick).cancel then Some(s.tick + 1)
                   else None, world)
  {
    StartTold(s, i, k, world);
    StartShape(s, i);
    WorkTold(StartTask(s, i), i, world, k);
    ToldLater(s, StartTask(s, i), WorkOn(StartTask(s, i), i, world).s, k,
              if k == i && s.memory.tasks[i].work.Composite? && !world(s.tick).cancel then Some(s.tick + 1)
                else None, world);
  }

  /** One turn tells of its own task, and leaves the others. */
  lemma TurnTold(s: RunState, i: nat, world: World, k: nat)
    requires i < |s.memory.tasks| && k < |s.memory.tasks|
    ensures Told(s, TaskTurn(s, i, world).s, k, if k == i then RunsFrom(s, i, world) else None, world)
  {
    if Skips(s.memory, i) || world(s.tick).cancel {
      IdleTurn(s, i, world);
    } else {
      BusyTold(Later(s), i, world, k);
      TurnIsWork(s, i, world);
    }
  }

  function Behind(s: RunState, i: nat, k: nat, world: World): Option<nat>
    requires k < |s.memory.tasks|
  {
    if i <= k then RunsBehind(s, i, k, world) else None
  }

  lemma ReturnedBehind(s: RunState, i: nat, k: nat, world: World)
    requires i < |s.memory.tasks| && k < |s.memory.tasks| && TaskTurn(s, i, world).Return?
    ensures Behind(s, i, k, world) == if k == i then RunsFrom(s, i, world) else None
  {
    if i < k {
      HeadAtUnfolds(s, i, k, world);
    }
  }

  lemma ContinuedBehind(s: RunState, i: nat, k: nat, world: World)
    requires i < |s.memory.tasks| && k < |s.memory.tasks| && TaskTurn(s, i, world).Continue?
    ensures |TaskTurn(s, i, world).s.memory.tasks| == |s.memory.tasks|
    ensures k == i ==>
              Behind(s, i, k, world) == RunsFrom(s, i, world)
              && Behind(TaskTurn(s, i, world).s, i + 1, k, world) == None
    ensures k != i ==> Behind(s, i, k, world) == Behind(TaskTurn(s, i, world).s, i + 1, k, world)
  {
    TurnKeepsTasks(s, i, world);
    if i < k {
      HeadAtUnfolds(s, i, k, world);
    }
  }

  lemma VerifyTold(s: RunState, k: nat, world: World)
    requires k < |s.memory.tasks|
    ensures Told(s, VerifyGoal(s, world), k, None, world)
  {
    assert Idle(s, VerifyGoal(s, world));
  }

  lemma {:induction false} LoopTold(s: RunState, i: nat, world: World, k: nat)
    requires i <= |s.memory.tasks| && k < |s.memory.tasks|
    ensures Told(s, RunTasks(s, i, world), k, Behind(s, i, k, world), world)
    decreases |s.memory.tasks| - i
  {
    if i == |s.memory.tasks| {
      VerifyTold(s, k, world);
    } else {
      var flow := TaskTurn(s, i, world);
      TurnTold(s, i, world, k);
      if flow.Continue? {
        ContinuedBehind(s, i, k, world);
        LoopTold(flow.s, i + 1, world, k);
        var end := RunTasks(flow.s, i + 1, world);
        if k == i {
          ToldBefore(s, flow.s, end, k, RunsFrom(s, i, world), world);
        } else {
          ToldLater(s, flow.s, end, k, Behind(s, i, k, world), world);
        }
      } else {
        ReturnedBehind(s, i, k, world);
      }
      RunTasksUnfolds(s, i, world);
    }
  }

  /** A goal run leaves each task as its sequence's run from StartOf left it, and as it was when its
      sequence did not run; the run's effects on the task are that run's. */
  lemma RunTold(s: RunState, world: World, k: nat)
    requires k < |s.memory.tasks|
    ensures Told(s, Goals.Run(s, world), k, StartOf(s, k, world), world)
  {
    if Refuse(s).None? {
      LoopTold(Opening(s), 0, world, k);
      ToldLater(s, Opening(s), RunTasks(Opening(s), 0, world), k, StartOf(s, k, world), world);
    }
  }
}
