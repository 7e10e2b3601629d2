/** Resuming a row that is behind the goal, because later writes to the store failed. */
module StaleRow {
  import opened Domain
  import opened CompositeTask
  import opened Goals
  import opened GoalFacts
  import opened GoalAccounts
  import opened Durability
  import opened Resumption
  import opened ResumptionFacts

  // ---- how memory moves on

  /** Tasks keep their identity, and completed ones stay as they are. */
  ghost predicate Grown(m: Memory, n: Memory) {
    && |n.tasks| == |m.tasks|
    && forall i :: 0 <= i < |m.tasks| ==>
         n.tasks[i].id == m.tasks[i].id && (m.tasks[i].state == TaskCompleted ==> n.tasks[i] == m.tasks[i])
  }

  /** No step of an uncompleted task is verified yet. */
  ghost predicate Unstarted(m: Memory) {
    forall i :: 0 <= i < |m.tasks| && m.tasks[i].state != TaskCompleted ==> Untried(m.tasks[i])
  }

  ghost predicate Ordered(s: RunState) {
    forall j, k :: 0 <= j < k < |s.emitted| ==> Grown(s.emitted[j].memory, s.emitted[k].memory)
  }

  /** While a run goes on, nothing was verified in an uncompleted task whenever an event was seen. */
  ghost predicate Past(s: RunState) {
    && Ordered(s)
    && forall j :: 0 <= j < |s.emitted| ==> Grown(s.emitted[j].memory, s.memory) && Unstarted(s.emitted[j].memory)
  }

  /** When it has ended this holds of all events but those of its end. */
  ghost predicate PastEnd(s: RunState) {
    && Ordered(s)
    && forall j, k :: 0 <= j < k < |s.emitted| ==>
         Unstarted(s.emitted[j].memory) || s.emitted[k].memory.tasks == s.emitted[j].memory.tasks
  }

  lemma GrownOn(l: Memory, m: Memory, n: Memory)
    requires Grown(l, m) && Grown(m, n)
    ensures Grown(l, n)
  {}

  /** The memory moves on before the next save. */
  lemma MovesOn(s: RunState, t: RunState)
    requires Past(s) && t.emitted == s.emitted && Grown(s.memory, t.memory)
    ensures Past(t)
  {
    forall j | 0 <= j < |s.emitted| ensures Grown(s.emitted[j].memory, t.memory) {
      GrownOn(s.emitted[j].memory, s.memory, t.memory);
    }
  }

  lemma SavePast(s: RunState)
    requires Past(s)
    ensures Past(Save(s)) && Save(s).memory == s.memory
  {}

  lemma EmitOrdered(s: RunState, e: Event)
    requires Ordered(s) && forall j :: 0 <= j < |s.emitted| ==> Grown(s.emitted[j].memory, s.memory)
    ensures Ordered(Emit(s, e))
  {}

  lemma EmitPast(s: RunState, e: Event)
    requires Past(s) && Unstarted(s.memory)
    ensures Past(Emit(s, e)) && Emit(s, e).memory == s.memory
  {
    EmitOrdered(s, e);
  }

  lemma EmitPastEnd(s: RunState, e: Event)
    requires Past(s)
    ensures PastEnd(Emit(s, e))
  {
    EmitOrdered(s, e);
  }

  lemma EmitTwicePastEnd(s: RunState, e: Event, e': Event)
    requires Past(s)
    ensures PastEnd(Emit(Emit(s, e), e'))
  {
    EmitOrdered(s, e);
    EmitOrdered(Emit(s, e), e');
  }

  // ---- the run

  lemma EndGoalPast(s: RunState, g: GoalStatus, e: Event)
    requires Past(s)
    ensures PastEnd(EndGoal(s, g, e))
            && (Unstarted(s.memory) ==> Past(EndGoal(s, g, e)) && Unstarted(EndGoal(s, g, e).memory))
  {
    MovesOn(s, SetGoal(s, g));
    SavePast(SetGoal(s, g));
    EmitPastEnd(Save(SetGoal(s, g)), e);
    if Unstarted(s.memory) {
      EmitPast(Save(SetGoal(s, g)), e);
    }
  }

  lemma FailTaskPast(s: RunState, i: nat)
    requires Past(s) && i < |s.memory.tasks| && s.memory.tasks[i].state != TaskCompleted
    ensures PastEnd(FailTask(s, i))
  {
    var failed := SetGoal(SetTask(s, i, TaskFailed), GoalFailed);
    MovesOn(s, failed);
    SavePast(failed);
    EmitTwicePastEnd(Save(failed), TaskFailedEvent(i), GoalFailedEvent);
  }

  lemma SuspendTaskPast(s: RunState, i: nat)
    requires Past(s) && i < |s.memory.tasks| && s.memory.tasks[i].state != TaskCompleted
    ensures PastEnd(SuspendTask(s, i))
  {
    var waiting := SetGoal(SetTask(s, i, TaskWaiting), GoalWaiting);
    MovesOn(s, waiting);
    SavePast(waiting);
    EmitPastEnd(Save(waiting), WaitingEvent);
  }

  /** Only task `i` may have been tried. */
  ghost predicate OthersUnstarted(m: Memory, i: nat) {
    forall j :: 0 <= j < |m.tasks| && j != i && m.tasks[j].state != TaskCompleted ==> Untried(m.tasks[j])
  }

  lemma CompleteTaskPast(s: RunState, i: nat)
    requires Past(s) && i < |s.memory.tasks| && s.memory.tasks[i].state != TaskCompleted && OthersUnstarted(s.memory, i)
    ensures Past(CompleteTask(s, i)) && Unstarted(CompleteTask(s, i).memory)
  {
    var listed := ListCompleted(SetTask(s, i, TaskCompleted), s.memory.tasks[i].id);
    MovesOn(s, listed);
    SavePast(listed);
    EmitPast(Save(listed), TaskCompletedEvent(i));
  }

  lemma StartTaskPast(s: RunState, i: nat)
    requires Past(s) && Unstarted(s.memory) && i < |s.memory.tasks| && s.memory.tasks[i].state != TaskCompleted
    ensures Past(StartTask(s, i)) && Unstarted(StartTask(s, i).memory)
    ensures i < |StartTask(s, i).memory.tasks| && StartTask(s, i).memory.tasks[i].state != TaskCompleted
  {
    var begun := SetCurrent(SetTask(s, i, TaskExecuting), i);
    MovesOn(s, begun);
    SavePast(begun);
    EmitPast(Save(begun), TaskStartedEvent(i));
  }

  ghost predicate FlowPast(flow: Flow) {
    match flow
    case Continue(t) => Past(t) && Unstarted(t.memory)
    case Return(t) => PastEnd(t)
  }

  lemma ConcludePast(end: TaskEnd, s: RunState, i: nat, world: World)
    requires Past(s) && i < |s.memory.tasks| && s.memory.tasks[i].state != TaskCompleted && OthersUnstarted(s.memory, i)
    ensures FlowPast(Goals.Conclude(end, s, i, world))
  {
    match end
    case TaskSucceeded => CompleteTaskPast(s, i);
    case TaskWaits => SuspendTaskPast(s, i);
    case TaskFails(_) => FailTaskPast(s, i);
    case TornDown =>
      MovesOn(s, Later(s));
      if world(s.tick).goalDeadline {
        EndGoalPast(Later(s), GoalFailed, GoalFailedEvent);
      } else {
        FailTaskPast(Later(s), i);
      }
  }

  lemma PerformPast(s: RunState, i: nat, world: World)
    requires Past(s) && Unstarted(s.memory) && i < |s.memory.tasks| && s.memory.tasks[i].state != TaskCompleted
    ensures FlowPast(PerformAndConclude(s, i, world))
  {
    var (end, performed) := Perform(s, i, world);
    MovesOn(s, performed);
    ConcludePast(end, performed, i, world);
  }

  lemma WorkPast(s: RunState, i: nat, world: World)
    requires Past(s) && Unstarted(s.memory) && i < |s.memory.tasks| && s.memory.tasks[i].state != TaskCompleted
    ensures FlowPast(WorkOn(s, i, world))
  {
    MovesOn(s, Later(s));
    if world(s.tick).cancel {
      FailTaskPast(Later(s), i);
    } else {
      PerformPast(Later(s), i, world);
    }
  }

  lemma BusyPast(s: RunState, i: nat, world: World)
    requires Past(s) && Unstarted(s.memory) && i < |s.memory.tasks| && s.memory.tasks[i].state != TaskCompleted
    ensures FlowPast(WorkOn(StartTask(s, i), i, world))
  {
    StartTaskPast(s, i);
    WorkPast(StartTask(s, i), i, world);
  }

  lemma TurnPast(s: RunState, i: nat, world: World)
    requires Past(s) && Unstarted(s.memory) && Reached(s.memory, i) && i < |s.memory.tasks|
    ensures FlowPast(TaskTurn(s, i, world))
  {
    MovesOn(s, Later(s));
    if !Skips(s.memory, i) {
      if world(s.tick).cancel {
        EndGoalPast(Later(s), GoalCancelled, GoalCancelledEvent);
      } else {
        BusyPast(Later(s), i, world);
      }
    }
  }

  lemma VerifyPast(s: RunState, world: World)
    requires Past(s) && Unstarted(s.memory)
    ensures PastEnd(VerifyGoal(s, world))
  {
    EndGoalPast(s, GoalVerifying, GoalVerifyingEvent);
    var verifying := EndGoal(s, GoalVerifying, GoalVerifyingEvent);
    MovesOn(verifying, Later(verifying));
    EndGoalPast(Later(verifying), GoalFailed, GoalFailedEvent);
    MovesOn(Later(verifying), MarkComplete(Later(verifying)));
    EndGoalPast(MarkComplete(Later(verifying)), GoalCompleted, GoalCompletedEvent);
  }

  /** The task loop is about to take up task `i`. */
  ghost predicate Underway(s: RunState, i: nat) {
    Past(s) && Unstarted(s.memory) && Opened(s) && Reached(s.memory, i)
  }

  lemma TurnUnderway(s: RunState, i: nat, world: World)
    requires Underway(s, i) && i < |s.memory.tasks|
    ensures match TaskTurn(s, i, world)
      case Continue(t) => Underway(t, i + 1) && |t.memory.tasks| == |s.memory.tasks|
      case Return(t) => PastEnd(t)
  {
    TurnPast(s, i, world);
    TurnEvents(s, i, world);
    TurnKeepsTasks(s, i, world);
  }

  lemma UnderwayEnds(s: RunState, world: World)
    requires Underway(s, |s.memory.tasks|)
    ensures PastEnd(VerifyGoal(s, world))
  {
    VerifyPast(s, world);
  }

  lemma GoneOn(s: RunState, i: nat, world: World, t: RunState)
    requires i < |s.memory.tasks| == |t.memory.tasks| && TaskTurn(s, i, world) == Flow.Continue(t)
    requires PastEnd(RunTasks(t, i + 1, world))
    ensures PastEnd(RunTasks(s, i, world))
  {
    RunTasksUnfolds(s, i, world);
  }

  lemma {:induction false} RunTasksPast(s: RunState, i: nat, world: World)
    requires Underway(s, i) && i <= |s.memory.tasks|
    ensures PastEnd(RunTasks(s, i, world))
    decreases |s.memory.tasks| - i
  {
    if i == |s.memory.tasks| {
      UnderwayEnds(s, world);
    } else {
      TurnUnderway(s, i, world);
      match TaskTurn(s, i, world)
      case Return(_) => RunTasksUnfolds(s, i, world);
      case Continue(t) =>
        RunTasksPast(t, i + 1, world);
        GoneOn(s, i, world, t);
    }
  }

  lemma RefusedPast(s: RunState)
    requires s.emitted == [] && Refuse(s).Some?
    ensures PastEnd(Refuse(s).value)
  {
    if s.memory.goalState == GoalWaiting && s.goalClarification.Some? {
      EmitTwicePastEnd(Save(s.(memory := s.memory.(clarification := s.goalClarification))), GoalAcceptedEvent,
        WaitingEvent);
    } else {
      EmitTwicePastEnd(Save(s), GoalAcceptedEvent, GoalFailedEvent);
    }
  }

  lemma RunPast(s: RunState, world: World)
    requires MemoryOk(s.memory) && Unstarted(s.memory) && s.emitted == []
    ensures PastEnd(Goals.Run(s, world))
  {
    if Refuse(s).Some? {
      RefusedPast(s);
    } else {
      EndGoalPast(s, GoalExecuting, GoalAcceptedEvent);
      OpeningOk(s);
      RunTasksPast(EndGoal(s, GoalExecuting, GoalAcceptedEvent), 0, world);
    }
  }

  // ---- the row

  /** The write before an event went through. */
  predicate Written(s: RunState, e: Emitted) { e.writes > 0 && s.works(e.writes - 1) }

  /** The store holds what the last write that worked has put there. */
  lemma {:induction false} LastRow(s: RunState, world: World, l: nat, k: nat)
    requires s.emitted == [] && s.hasStore && l <= k < |Goals.Run(s, world).emitted|
    requires Written(s, Goals.Run(s, world).emitted[l])
    requires forall i :: l < i <= k ==> !Written(s, Goals.Run(s, world).emitted[i])
    ensures var emitted := Goals.Run(s, world).emitted;
            emitted[k].stored == Some(Checkpoint(emitted[l].memory))
    decreases k - l
  {
    DurableExactly(s, world, k);
    if l < k {
      LastRow(s, world, l, k - 1);
    }
  }

  // ---- resuming it

  /** `id` names one of the tasks from `k` up to `first`. */
  predicate Names(tasks: seq<Task>, k: nat, first: nat, id: string)
    requires first <= |tasks|
  {
    exists j :: k <= j < first && tasks[j].id == id
  }

  lemma UntriedCut(t: Task, index: nat, now: Task)
    requires Untried(t)
    ensures Cut(now, CheckpointTask(t, index)).0 == now
  {
    IndicesEmpty(StepsOf(t), CountsVerified);
  }

  /** The walk over the checkpoint of `m` leaves the tasks of `n` alone and lists those that `m` calls completed. */
  ghost predicate Walked(m: Memory, n: Memory, w: Memory, k: nat, first: nat, r: Memory)
    requires first <= |m.tasks|
  {
    && r.tasks == n.tasks
    && forall id :: id in r.completedIds <==> id in w.completedIds || Names(m.tasks, k, first, id)
  }

  lemma StaleRetain(m: Memory, n: Memory, w: Memory, k: nat, first: nat, r: Memory)
    requires Grown(m, n) && k < first <= |m.tasks| && m.tasks[k].state == TaskCompleted && w.tasks == n.tasks
    requires Walked(m, n, Retain(w, CheckpointTask(m.tasks[k], k)), k + 1, first, r)
    ensures Walked(m, n, w, k, first, r)
  {
    var kept := Retain(w, CheckpointTask(m.tasks[k], k));
    forall id ensures id in r.completedIds <==> id in w.completedIds || Names(m.tasks, k, first, id) {
      assert id in kept.completedIds <==> id in w.completedIds || id == m.tasks[k].id;
    }
  }

  lemma StaleStop(m: Memory, n: Memory, w: Memory, k: nat)
    requires Grown(m, n) && Unstarted(m) && k < |m.tasks| && m.tasks[k].state != TaskCompleted && w.tasks == n.tasks
    ensures Walked(m, n, w, k, k, Walk(CheckpointTasks(m.tasks), k, w).0)
  {
    var tcps := CheckpointTasks(m.tasks);
    UntriedCut(m.tasks[k], k, n.tasks[k]);
    assert n.tasks[k := n.tasks[k]] == n.tasks;
    WalkUnfolds(tcps, k, w);
  }

  lemma {:induction false} StaleWalk(m: Memory, n: Memory, w: Memory, k: nat, first: nat)
    requires Grown(m, n) && Unstarted(m) && Frontier(m.tasks, m.completedIds, first)
    requires k <= first && w.tasks == n.tasks
    ensures Walked(m, n, w, k, first, Walk(CheckpointTasks(m.tasks), k, w).0)
    decreases first - k
  {
    var tcps := CheckpointTasks(m.tasks);
    if k < first {
      var kept := Retain(w, tcps[k]);
      assert n.tasks[k := n.tasks[k].(state := TaskCompleted)] == n.tasks;
      StaleWalk(m, n, kept, k + 1, first);
      StaleRetain(m, n, w, k, first, Walk(tcps, k + 1, kept).0);
      WalkUnfolds(tcps, k, w);
    } else if k < |tcps| {
      StaleStop(m, n, w, k);
    }
  }

  /** The tasks the row knew as completed, or the caller lists. */
  predicate Listed(m: Memory, first: nat, context: Option<Context>, id: string)
    requires first <= |m.tasks|
  {
    Names(m.tasks, 0, first, id) || (context.Some? && id in context.value.completedIds)
  }

  /** Resuming a row whose task of the boundary was never tried: no step is cut off any task, and a task that has
      been completed since then runs again, from its first step on, unless the caller lists it. */
  ghost predicate RunsAgain(m: Memory, n: Memory, context: Option<Context>, first: nat) {
    && first <= |m.tasks|
    && var r := Resume(Checkpoint(m), Some(n), context).0;
       && r.tasks == n.tasks
       && forall i :: 0 <= i < |n.tasks| ==>
            (Skips(r, i) <==> n.tasks[i].state == TaskCompleted && Listed(m, first, context, n.tasks[i].id))
  }

  lemma UnstartedRunsAgain(m: Memory, n: Memory, context: Option<Context>, first: nat)
    requires Grown(m, n) && Unstarted(m) && Frontier(m.tasks, m.completedIds, first)
    ensures RunsAgain(m, n, context, first)
  {
    StaleWalk(m, n, Initial(Checkpoint(m), Some(n), context), 0, first);
  }

  lemma SameTasksContinue(m: Memory, n: Memory, context: Option<Context>)
    requires MemoryOk(m) && m.tasks == n.tasks
    ensures exists first: nat :: Continues(m, Resume(Checkpoint(m), Some(n), context).0, first)
  {
    var first: nat :| Frontier(m.tasks, m.completedIds, first);
    WalkFinds(m, Initial(Checkpoint(m), Some(n), context), first);
    var (r, boundary) := Resume(Checkpoint(m), Some(n), context);
    if first < |m.tasks| {
      var cut := CutIsSafe(m.tasks[first], first);
      CutContinues(m, r, first, r.tasks[first], boundary, cut);
    } else {
      NothingLeftContinues(m, r);
    }
  }

  /** Resuming the row of `m` on the goal `n`. Either it cuts off just the verified steps, as an up-to-date row does,
      or nothing at all is cut and the tasks completed since then run again. */
  ghost predicate StaleResume(m: Memory, n: Memory, context: Option<Context>) {
    exists first: nat ::
      if n.tasks == m.tasks then Continues(n, Resume(Checkpoint(m), Some(n), context).0, first)
      else Frontier(m.tasks, m.completedIds, first) && RunsAgain(m, n, context, first)
  }

  lemma StaleMemory(m: Memory, n: Memory, context: Option<Context>)
    requires MemoryOk(m) && Grown(m, n) && (Unstarted(m) || n.tasks == m.tasks)
    ensures StaleResume(m, n, context)
  {
    if n.tasks == m.tasks {
      SameTasksContinue(m, n, context);
      var first: nat :| Continues(m, Resume(Checkpoint(m), Some(n), context).0, first);
      assert Continues(n, Resume(Checkpoint(m), Some(n), context).0, first);
    } else {
      var first: nat :| Frontier(m.tasks, m.completedIds, first);
      UnstartedRunsAgain(m, n, context, first);
    }
  }

  /** The store at event `k` holds the row of event `l`, the last one whose write worked. Resuming it on the goal as
      it stands at event `k` drops no step that was not verified, and repeats exactly the tasks that were completed
      between the two events and are not listed by the caller. See StaleResume and RunsAgain. */
  lemma StaleRowResumes(s: RunState, world: World, l: nat, k: nat, context: Option<Context>)
    requires MemoryOk(s.memory) && Unstarted(s.memory) && s.emitted == [] && s.hasStore
    requires l < k < |Goals.Run(s, world).emitted|
    requires Written(s, Goals.Run(s, world).emitted[l])
    requires forall i :: l < i <= k ==> !Written(s, Goals.Run(s, world).emitted[i])
    ensures var emitted := Goals.Run(s, world).emitted;
            && emitted[k].stored == Some(Checkpoint(emitted[l].memory))
            && StaleResume(emitted[l].memory, emitted[k].memory, context)
  {
    LastRow(s, world, l, k);
    RunPast(s, world);
    RunStream(s, world);
    var t := Goals.Run(s, world);
    assert EntryOk(t.emitted[l], t.hasStore, t.works);
    StaleMemory(t.emitted[l].memory, t.emitted[k].memory, context);
  }
}
