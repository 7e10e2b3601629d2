/** Resuming a goal from its checkpoint alone, as the session does. */
module LostGoal {
  import opened Domain
  import opened Goals
  import opened GoalFacts
  import opened GoalAccounts
  import opened Resumption
  import opened ResumptionFacts

  predicate Empty(tasks: seq<Task>) { forall i :: 0 <= i < |tasks| ==> tasks[i].work == Plain(0) }

  lemma {:induction false} WalkKeepsEmpty(tcps: seq<TaskCheckpoint>, k: nat, m: Memory)
    requires k <= |tcps| && Empty(m.tasks)
    ensures var (r, boundary) := Walk(tcps, k, m);
            Empty(r.tasks) && |r.tasks| == |m.tasks|
    decreases |tcps| - k
  {
    if k < |tcps| {
      WalkUnfolds(tcps, k, m);
      if Finished(tcps[k]) {
        WalkKeepsEmpty(tcps, k + 1, Retain(m, tcps[k]));
      }
    }
  }

  /** Every unfinished step of every uncompleted task is still there, in order, behind a cut of
      verified steps. */
  ghost predicate KeepsUnfinished(m: Memory, r: Memory) {
    && |r.tasks| == |m.tasks|
    && forall i :: 0 <= i < |m.tasks| && m.tasks[i].state != TaskCompleted ==>
         exists cut: nat :: CutOff(StepsOf(m.tasks[i]), StepsOf(r.tasks[i]), cut)
  }

  lemma NothingCut(m: Memory, first: nat, i: nat)
    requires MemoryOk(m) && first < i < |m.tasks| && m.tasks[first].state != TaskCompleted
    ensures CutOff(StepsOf(m.tasks[i]), StepsOf(m.tasks[i]), 0)
  {
    LaterUntried(m, first, i);
    var steps := StepsOf(m.tasks[i]);
    assert forall j :: 0 <= j < |steps| ==> steps[j] in steps;
  }

  lemma GoalKeeps(m: Memory, context: Option<Context>)
    requires MemoryOk(m)
    ensures KeepsUnfinished(m, Resume(Checkpoint(m), Some(m), context).0)
  {
    var first := ResumeContinues(m, context);
    ContinuingKeeps(m, Resume(Checkpoint(m), Some(m), context).0, first);
  }

  lemma ContinuingKeeps(m: Memory, r: Memory, first: nat)
    requires MemoryOk(m) && Continues(m, r, first)
    ensures KeepsUnfinished(m, r)
  {
    forall i | 0 <= i < |m.tasks| && m.tasks[i].state != TaskCompleted
      ensures exists cut: nat :: CutOff(StepsOf(m.tasks[i]), StepsOf(r.tasks[i]), cut)
    {
      if i > first {
        NothingCut(m, first, i);
      }
    }
  }

  lemma EmptyKeeps(m: Memory, r: Memory)
    requires MemoryOk(m) && |r.tasks| == |m.tasks| && Empty(r.tasks)
    ensures KeepsUnfinished(m, r) <==>
            forall i :: 0 <= i < |m.tasks| && m.tasks[i].state != TaskCompleted ==> StepsOf(m.tasks[i]) == []
  {
    forall i | 0 <= i < |m.tasks| && m.tasks[i].state != TaskCompleted
      ensures (exists cut: nat :: CutOff(StepsOf(m.tasks[i]), StepsOf(r.tasks[i]), cut)) <==> StepsOf(m.tasks[i]) == []
    {
      assert TaskOk(m.tasks[i]) && StepsOf(r.tasks[i]) == [];
      if StepsOf(m.tasks[i]) == [] {
        assert CutOff([], [], 0);
      }
    }
  }

  /** Resuming keeps the unfinished steps exactly when the goal object is passed along, or when
      no uncompleted task had a step to begin with: the checkpoint alone does not hold them. */
  lemma ResumeNeedsGoal(m: Memory, goal: Option<Memory>, context: Option<Context>)
    requires MemoryOk(m) && (goal == None || goal == Some(m))
    ensures KeepsUnfinished(m, Resume(Checkpoint(m), goal, context).0) <==>
            goal.Some? || forall i :: 0 <= i < |m.tasks| && m.tasks[i].state != TaskCompleted ==>
              StepsOf(m.tasks[i]) == []
  {
    if goal.Some? {
      GoalKeeps(m, context);
    } else {
      WalkKeepsEmpty(Checkpoint(m).tasks, 0, Initial(Checkpoint(m), None, context));
      EmptyKeeps(m, Resume(Checkpoint(m), None, context).0);
    }
  }

  // ---- and what the resumed run reports

  predicate Calm(o: Obs) { !o.cancel && o.strike == NoStrike }

  /** Nothing cancels the run and no deadline strikes. */
  ghost predicate AllCalm(world: World) { forall n: nat :: Calm(world(n)) }

  /** The run's last event reports the goal complete. */
  predicate Reported(t: RunState) { |t.emitted| > 0 && t.emitted[|t.emitted| - 1].event == GoalCompletedEvent }

  /** What a turn leaves when every task is empty. */
  ghost predicate Passing(s: RunState, t: RunState, i: nat) {
    && t.effects == s.effects && |t.memory.tasks| == |s.memory.tasks| && Empty(t.memory.tasks)
    && i < |t.memory.tasks|
    && forall j :: 0 <= j < i && s.memory.tasks[j].state == TaskCompleted ==> t.memory.tasks[j].state == TaskCompleted
  }

  lemma EmptyWork(s: RunState, i: nat, world: World)
    requires i < |s.memory.tasks| && s.memory.tasks[i].work == Plain(0)
    ensures var later := Later(s);
            WorkOn(s, i, world) == if world(s.tick).cancel then Flow.Return(FailTask(later, i))
              else Flow.Continue(CompleteTask(later, i))
  {}

  lemma StartPasses(s: RunState, i: nat)
    requires i < |s.memory.tasks| && Empty(s.memory.tasks)
    ensures Passing(s, StartTask(s, i), i)
  {}

  lemma EndPasses(s: RunState, i: nat)
    requires i < |s.memory.tasks| && Empty(s.memory.tasks)
    ensures Passing(s, FailTask(s, i), i) && Passing(s, CompleteTask(s, i), i)
    ensures CompleteTask(s, i).memory.tasks[i].state == TaskCompleted
  {}

  /** The flow passes on from a turn at `i`, completing the task unless the run was cancelled. */
  ghost predicate Passes(s: RunState, flow: Flow, i: nat, world: World) {
    && Passing(s, flow.s, i)
    && (AllCalm(world) ==> flow.Continue?)
    && (flow.Continue? ==> flow.s.memory.tasks[i].state == TaskCompleted)
  }

  lemma EmptyBusy(s: RunState, i: nat, world: World)
    requires i < |s.memory.tasks| && Empty(s.memory.tasks)
    ensures Passes(s, WorkOn(StartTask(s, i), i, world), i, world)
  {
    var started := StartTask(s, i);
    StartPasses(s, i);
    EmptyWork(started, i, world);
    EndPasses(Later(started), i);
    assert AllCalm(world) ==> Calm(world(started.tick));
  }

  lemma EmptyTurn(s: RunState, i: nat, world: World)
    requires i < |s.memory.tasks| && Empty(s.memory.tasks)
    ensures Passes(s, TaskTurn(s, i, world), i, world)
  {
    assert AllCalm(world) ==> Calm(world(s.tick));
    if !Skips(s.memory, i) && !world(s.tick).cancel {
      TurnIsWork(s, i, world);
      EmptyBusy(Later(s), i, world);
    }
  }

  lemma EmptyVerify(s: RunState, world: World)
    requires Empty(s.memory.tasks) && AllCompleted(s.memory.tasks)
    ensures var t := VerifyGoal(s, world);
            && t.effects == s.effects
            && (AllCalm(world) ==> Reported(t))
  {
    assert AllCalm(world) ==> Calm(world(s.tick));
  }

  lemma {:induction false} EmptyRun(s: RunState, i: nat, world: World)
    requires i <= |s.memory.tasks| && Empty(s.memory.tasks)
    requires forall j :: 0 <= j < i ==> s.memory.tasks[j].state == TaskCompleted
    ensures var t := RunTasks(s, i, world);
            && t.effects == s.effects
            && (AllCalm(world) ==> Reported(t))
    decreases |s.memory.tasks| - i
  {
    if i == |s.memory.tasks| {
      EmptyVerify(s, world);
    } else {
      EmptyTurn(s, i, world);
      var flow := TaskTurn(s, i, world);
      if flow.Continue? {
        EmptyRun(flow.s, i + 1, world);
      }
      RunTasksUnfolds(s, i, world);
    }
  }

  lemma EmptyGoal(s: RunState, world: World)
    requires Empty(s.memory.tasks) && s.effects == [] && s.memory.goalState == GoalExecuting
    ensures var t := Goals.Run(s, world);
            && t.effects == []
            && (AllCalm(world) ==> Reported(t))
  {
    EmptyRun(EndGoal(s, GoalExecuting, GoalAcceptedEvent), 0, world);
  }

  /** A goal resumed from its checkpoint alone performs no actuation at all, and yet, if nothing
      cancels or times it out, it ends reported as completed. */
  lemma LostGoalReportsSuccess(cp: GoalCheckpoint, context: Option<Context>, hasStore: bool,
                               stored: Option<GoalCheckpoint>, works: nat -> bool, writes: nat,
                               world: World, tick: nat)
    requires Resumable(cp)
    ensures var s := RunState(Resume(cp, None, context).0, None, false, hasStore, stored, works, writes, [], [], tick);
            var t := Goals.Run(s, world);
            && t.effects == []
            && (AllCalm(world) ==> Reported(t))
  {
    WalkKeepsEmpty(cp.tasks, 0, Initial(cp, None, context));
    EmptyGoal(RunState(Resume(cp, None, context).0, None, false, hasStore, stored, works, writes, [], [], tick), world);
  }
}
