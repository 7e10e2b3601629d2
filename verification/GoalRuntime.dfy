/** The goal store and the runtime that drives a goal, checkpointing before each event. */
module GoalRuntimes {
  import opened Domain
  import opened CompositeTask
  import opened Goals
  import Resumption
  import Rollback

  /** One row per goal. */
  class GoalStore {
    const works: nat -> bool   // whether the n-th write goes through
    var rows: map<string, GoalCheckpoint>
    var writes: nat

    ghost predicate Valid()
      reads this
    {
      forall id :: id in rows ==> rows[id].goalId == id
    }

    constructor (works: nat -> bool)
      ensures Valid() && this.works == works && rows == map[] && writes == 0
    {
      this.works := works;
      rows, writes := map[], 0;
    }

    /** Upserts the goal's row in a transaction; false stands for the error a failing write raises. */
    method SaveCheckpoint(cp: GoalCheckpoint) returns (ok: bool)
      modifies this
      ensures ok == works(old(writes)) && writes == old(writes) + 1
      ensures rows == if ok then old(rows)[cp.goalId := cp] else old(rows)
      ensures old(Valid()) ==> Valid()
    {
      ok := works(writes);
      writes := writes + 1;
      if ok {
        rows := rows[cp.goalId := cp];
      }
    }

    /** `raised` stands for the error a failing write raises. */
    method MarkNonResumable(goalId: string) returns (found: bool, raised: bool)
      requires Valid()
      modifies this
      ensures Valid() && found == (goalId in old(rows)) && raised == (found && !works(old(writes)))
      ensures writes == old(writes) + if found then 1 else 0
      ensures rows == if found && !raised then old(rows)[goalId := old(rows)[goalId].(resumable := false)]
              else old(rows)
    {
      found, raised := goalId in rows, false;
      if found {
        var ok := SaveCheckpoint(rows[goalId].(resumable := false));
        raised := !ok;
      }
    }
  }

  class GoalRuntime {
    const goalId: string
    const store: GoalStore?
    const goalClarification: Option<StepId>
    const invalidPlan: bool
    var goalState: GoalStatus
    var isComplete: bool
    var tasks: seq<Task>
    var current: nat
    var completedIds: seq<string>
    var clarification: Option<StepId>
    var emitted: seq<Emitted>
    var effects: seq<GoalEffect>
    var tick: nat

    constructor (m: Memory, goalClarification: Option<StepId>, invalidPlan: bool, store: GoalStore?, tick: nat)
      ensures State().memory == m && State().emitted == [] && State().effects == [] && State().tick == tick
      ensures this.store == store && this.goalClarification == goalClarification && this.invalidPlan == invalidPlan
    {
      goalId, goalState, isComplete, tasks := m.goalId, m.goalState, m.isComplete, m.tasks;
      current, completedIds, clarification := m.current, m.completedIds, m.clarification;
      this.goalClarification, this.invalidPlan, this.store := goalClarification, invalidPlan, store;
      emitted, effects, this.tick := [], [], tick;
    }

    function Now(): Memory
      reads this
    {
      Memory(goalId, goalState, isComplete, tasks, current, completedIds, clarification)
    }

    /** The run state of a runtime on this memory, with what it sees of the store. */
    static function StateOn(m: Memory, goalClarification: Option<StepId>, invalidPlan: bool, store: GoalStore?,
                            emitted: seq<Emitted>, effects: seq<GoalEffect>, tick: nat): RunState
      reads store
    {
      if store == null then
        RunState(m, goalClarification, invalidPlan, false, None, _ => true, 0, emitted, effects, tick)
      else
        RunState(m, goalClarification, invalidPlan, true,
                 if m.goalId in store.rows then Some(store.rows[m.goalId]) else None,
                 store.works, store.writes, emitted, effects, tick)
    }

    /** The run state this object represents. */
    function State(): RunState
      reads this, store
    {
      StateOn(Now(), goalClarification, invalidPlan, store, emitted, effects, tick)
    }

    /** A failing write is logged and swallowed. */
    method PersistCheckpoint()
      modifies store
      ensures State() == Save(old(State()))
      ensures store != null && old(store.Valid()) ==> store.Valid()
    {
      var cp := Checkpoint(Now());
      if store != null {
        var saved := store.SaveCheckpoint(cp);
      }
    }

    method EmitEvent(e: Event)
      modifies this
      ensures State() == Emit(old(State()), e)
    {
      emitted := emitted + [Emitted(e, State().stored, Now(), State().writes)];
    }

    method Finish(g: GoalStatus, e: Event)
      modifies this, store
      ensures State() == EndGoal(old(State()), g, e)
    {
      goalState := g;
      PersistCheckpoint();
      EmitEvent(e);
    }

    /** Takes the next answer of the environment. */
    method Look(world: World) returns (o: Obs)
      modifies this
      ensures o == world(old(tick))
      ensures State() == Later(old(State()))
    {
      o := world(tick);
      tick := tick + 1;
    }

    method Fail(i: nat)
      requires i < |tasks|
      modifies this, store
      ensures State() == FailTask(old(State()), i)
    {
      tasks := tasks[i := tasks[i].(state := TaskFailed)];
      goalState := GoalFailed;
      PersistCheckpoint();
      EmitEvent(TaskFailedEvent(i));
      EmitEvent(GoalFailedEvent);
    }

    /** Performs task `i`: its composite sequence, or one answer for its plain intents. */
    method PerformTask(i: nat, world: World) returns (end: TaskEnd)
      requires i < |tasks|
      modifies this
      ensures (end, State()) == Perform(old(State()), i, world)
    {
      if tasks[i].work.Plain? {
        if tasks[i].work.intents == 0 {
          return TaskSucceeded;
        }
        end := PlainEnd(world(tick));
        tick := tick + 1;
      } else {
        var run := ExecuteTask(tasks[i].work.plan, world, tick);
        tasks := tasks[i := tasks[i].(work := Composite(run.state.plan),
                                      actions := tasks[i].actions + run.state.actions)];
        if run.state.clarification.Some? {
          clarification := run.state.clarification;
        }
        effects := effects + Tag(i, run.state.effects);
        tick := run.state.tick;
        end := run.end;
      }
    }

    method Start(i: nat)
      requires i < |tasks|
      modifies this, store
      ensures State() == StartTask(old(State()), i)
      ensures |tasks| == old(|tasks|)
    {
      current := i;
      tasks := tasks[i := tasks[i].(state := TaskExecuting)];
      PersistCheckpoint();
      EmitEvent(TaskStartedEvent(i));
    }

    method FinishTask(i: nat, world: World) returns (done: bool)
      requires i < |tasks|
      modifies this, store
      ensures PerformAndConclude(old(State()), i, world) == if done then Flow.Return(State())
              else Flow.Continue(State())
    {
      ghost var before := State();
      var end := PerformTask(i, world);
      assert (end, State()) == Perform(before, i, world);
      done := EndTask(end, i, world);
    }

    /** Works on the started task `i`; `done` tells that the run has ended. */
    method WorkTask(i: nat, world: World) returns (done: bool)
      requires i < |tasks|
      modifies this, store
      ensures WorkOn(old(State()), i, world) == if done then Flow.Return(State()) else Flow.Continue(State())
    {
      var o := Look(world);
      if o.cancel {
        Fail(i);
        return true;
      }
      done := FinishTask(i, world);
    }

    method StartAndWork(i: nat, world: World) returns (done: bool)
      requires i < |tasks|
      modifies this, store
      ensures WorkOn(StartTask(old(State()), i), i, world) == if done then Flow.Return(State())
              else Flow.Continue(State())
    {
      Start(i);
      done := WorkTask(i, world);
    }

    /** One turn of the task loop; `done` tells that the run has ended. */
    method TurnTask(i: nat, world: World) returns (done: bool)
      requires i < |tasks|
      modifies this, store
      ensures TaskTurn(old(State()), i, world) == if done then Flow.Return(State()) else Flow.Continue(State())
    {
      if tasks[i].state == TaskCompleted && tasks[i].id in completedIds {
        return false;
      }
      var o := Look(world);
      if o.cancel {
        Finish(GoalCancelled, GoalCancelledEvent);
        return true;
      }
      done := StartAndWork(i, world);
    }

    method Complete(i: nat)
      requires i < |tasks|
      modifies this, store
      ensures State() == CompleteTask(old(State()), i)
    {
      tasks := tasks[i := tasks[i].(state := TaskCompleted)];
      completedIds := completedIds + [tasks[i].id];
      PersistCheckpoint();
      EmitEvent(TaskCompletedEvent(i));
    }

    method Suspend(i: nat)
      requires i < |tasks|
      modifies this, store
      ensures State() == SuspendTask(old(State()), i)
    {
      tasks := tasks[i := tasks[i].(state := TaskWaiting)];
      goalState := GoalWaiting;
      PersistCheckpoint();
      EmitEvent(WaitingEvent);
    }

    method TearDown(i: nat, world: World)
      requires i < |tasks|
      modifies this, store
      ensures Conclude(TornDown, old(State()), i, world) == Flow.Return(State())
    {
      var o := Look(world);
      if o.goalDeadline {
        Finish(GoalFailed, GoalFailedEvent);
      } else {
        Fail(i);
      }
    }

    method EndTask(end: TaskEnd, i: nat, world: World) returns (done: bool)
      requires i < |tasks|
      modifies this, store
      ensures Conclude(end, old(State()), i, world) == if done then Flow.Return(State()) else Flow.Continue(State())
    {
      done := true;
      match end
      case TaskSucceeded =>
        Complete(i);
        done := false;
      case TaskWaits => Suspend(i);
      case TaskFails(_) => Fail(i);
      case TornDown => TearDown(i, world);
    }

    method CompleteGoal()
      modifies this, store
      ensures State() == EndGoal(MarkComplete(old(State())), GoalCompleted, GoalCompletedEvent)
    {
      isComplete := true;
      Finish(GoalCompleted, GoalCompletedEvent);
    }

    method Verify(world: World)
      modifies this, store
      ensures State() == VerifyGoal(old(State()), world)
    {
      Finish(GoalVerifying, GoalVerifyingEvent);
      var o := Look(world);
      if o.strike == OuterDeadline {
        Finish(GoalFailed, GoalFailedEvent);
      } else if AllCompleted(tasks) && (o.goalVerified || NothingToCheck(tasks)) {
        CompleteGoal();
      } else {
        Finish(GoalFailed, GoalFailedEvent);
      }
    }

    /** Reports a goal that waits for an answer or failed validation. */
    method Decline() returns (declined: bool)
      modifies this, store
      ensures declined == Refuse(old(State())).Some?
      ensures State() == if declined then Refuse(old(State())).value else old(State())
    {
      if goalState == GoalWaiting && goalClarification.Some? {
        clarification := goalClarification;
        PersistCheckpoint();
        EmitEvent(GoalAcceptedEvent);
        EmitEvent(WaitingEvent);
        return true;
      }
      if goalState == GoalFailed && invalidPlan {
        PersistCheckpoint();
        EmitEvent(GoalAcceptedEvent);
        EmitEvent(GoalFailedEvent);
        return true;
      }
      return false;
    }

    /** One round of the task loop, as a step of the whole run. */
    method RoundTask(i: nat, world: World) returns (done: bool)
      requires i < |tasks|
      modifies this, store
      ensures |tasks| == old(|tasks|) || done
      ensures done ==> State() == RunTasks(old(State()), i, world)
      ensures !done ==> RunTasks(State(), i + 1, world) == RunTasks(old(State()), i, world)
    {
      ghost var before := State();
      done := TurnTask(i, world);
      RunTasksUnfolds(before, i, world);
    }

    /** What follows the last task. */
    method EndTasks(world: World)
      modifies this, store
      ensures State() == RunTasks(old(State()), old(|tasks|), world)
    {
      Verify(world);
    }

    method ExecuteTasks(world: World)
      modifies this, store
      ensures State() == RunTasks(old(State()), 0, world)
    {
      ghost var whole := RunTasks(State(), 0, world);
      var i, n := 0, |tasks|;
      while i < n
        invariant 0 <= i <= n == |tasks|
        invariant RunTasks(State(), i, world) == whole
      {
        var done := RoundTask(i, world);
        if done {
          return;
        }
        i := i + 1;
      }
      EndTasks(world);
    }

    /** Drives the goal to a terminal event. */
    method Run(world: World)
      modifies this, store
      ensures State() == Goals.Run(old(State()), world)
    {
      var declined := Decline();
      if !declined {
        Finish(GoalExecuting, GoalAcceptedEvent);
        ExecuteTasks(world);
      }
    }

    method MarkStored() returns (raised: bool)
      requires store != null ==> store.Valid()
      modifies store
      ensures State() == Rollback.Mark(old(State())) && raised == Rollback.MarkRaises(old(State()))
    {
      raised := false;
      if store != null {
        var found;
        found, raised := store.MarkNonResumable(goalId);
      }
    }

    /** Rolls back what can be undone, saves, and marks the checkpoint non-resumable; `raised` tells
        that the store's error reaches the caller instead of the report. */
    method AbortAndRollback(world: World) returns (report: Rollback.Report, raised: bool)
      requires store != null ==> store.Valid()
      modifies this, store
      ensures (State(), report, raised) == Rollback.Abort(old(State()), world)
    {
      goalState := GoalFailed;
      var after;
      after, report := Rollback.RollbackTasks(tasks, world, tick);
      tasks, tick := after, report.tick;
      PersistCheckpoint();
      assert (State(), report) == Rollback.RolledBack(old(State()), world);
      raised := MarkStored();
    }

    /** Reconstructs a runtime from a checkpoint and checkpoints the resumed state; null when
        the checkpoint may not be resumed. */
    static method Resume(cp: GoalCheckpoint, goal: Option<Memory>, context: Option<Resumption.Context>,
                         store: GoalStore?, tick: nat)
      returns (runtime: GoalRuntime?, boundary: Resumption.Boundary)
      modifies store
      ensures runtime == null <==>
                || cp.schemaVersion != "1.0" || cp.goalState == GoalCompleted || cp.goalState == GoalCancelled
                || !cp.resumable
                || cp.current < 0 || (cp.totalTasks > 0 && cp.current >= cp.totalTasks)
      ensures runtime != null ==> fresh(runtime) && runtime.store == store
      ensures runtime != null ==>
                var (m, where) := Resumption.Resume(cp, goal, context);
                && boundary == where
                && runtime.State() == Save(old(StateOn(m, None, false, store, [], [], tick)))
    {
      boundary := Resumption.NothingLeft;
      if !Resumption.Resumable(cp) {
        return null, boundary;
      }
      var m;
      m, boundary := Resumption.FindBoundary(cp, goal, context);
      runtime := new GoalRuntime(m, None, false, store, tick);
      runtime.PersistCheckpoint();
    }
  }
}
