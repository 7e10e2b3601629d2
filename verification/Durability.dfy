/** What the store holds when an event becomes visible, although a write may fail unnoticed. */
module Durability {
  import opened Domain
  import opened CompositeTask
  import opened Goals

  /** The row in front of the k-th event. */
  function RowBefore(first: RunState, emitted: seq<Emitted>, k: nat): Option<GoalCheckpoint>
    requires k <= |emitted|
  {
    if k == 0 then first.stored else emitted[k - 1].stored
  }

  /** At the k-th event the store holds the checkpoint of memory if the write before it worked, and
      what it held at the event before otherwise. */
  predicate LastWritten(first: RunState, emitted: seq<Emitted>, k: nat)
    requires k < |emitted|
  {
    var e := emitted[k];
    && e.writes > 0
    && e.stored == if first.works(e.writes - 1) then Some(Checkpoint(e.memory)) else RowBefore(first, emitted, k)
  }

  ghost predicate Trail(first: RunState, s: RunState) {
    && s.hasStore && s.works == first.works
    && s.stored == RowBefore(first, s.emitted, |s.emitted|)
    && forall k :: 0 <= k < |s.emitted| ==> LastWritten(first, s.emitted, k)
  }

  lemma EmitTrail(first: RunState, s: RunState, e: Event)
    requires s.hasStore && s.works == first.works
    requires forall k :: 0 <= k < |s.emitted| ==> LastWritten(first, s.emitted, k)
    requires s.writes > 0
    requires s.stored == if s.works(s.writes - 1) then Some(Checkpoint(s.memory))
             else RowBefore(first, s.emitted, |s.emitted|)
    ensures Trail(first, Emit(s, e))
  {
    var t := Emit(s, e);
    forall k | 0 <= k < |t.emitted| ensures LastWritten(first, t.emitted, k) {
      if k < |s.emitted| {
        assert LastWritten(first, s.emitted, k);
      }
    }
  }

  /** Save and report. */
  lemma SaveTrail(first: RunState, s: RunState, e: Event)
    requires Trail(first, s)
    ensures Trail(first, Emit(Save(s), e))
  {
    EmitTrail(first, Save(s), e);
  }

  /** Save and report twice. */
  lemma SaveTwiceTrail(first: RunState, s: RunState, e: Event, e': Event)
    requires Trail(first, s)
    ensures Trail(first, Emit(Emit(Save(s), e), e'))
  {
    SaveTrail(first, s, e);
    EmitTrail(first, Emit(Save(s), e), e');
  }

  lemma EndGoalTrail(first: RunState, s: RunState, g: GoalStatus, e: Event)
    requires Trail(first, s)
    ensures Trail(first, EndGoal(s, g, e))
  {
    SaveTrail(first, SetGoal(s, g), e);
  }

  lemma FailTaskTrail(first: RunState, s: RunState, i: nat)
    requires Trail(first, s) && i < |s.memory.tasks|
    ensures Trail(first, FailTask(s, i))
  {
    SaveTwiceTrail(first, SetGoal(SetTask(s, i, TaskFailed), GoalFailed), TaskFailedEvent(i), GoalFailedEvent);
  }

  lemma StartTaskTrail(first: RunState, s: RunState, i: nat)
    requires Trail(first, s) && i < |s.memory.tasks|
    ensures Trail(first, StartTask(s, i))
  {
    SaveTrail(first, SetCurrent(SetTask(s, i, TaskExecuting), i), TaskStartedEvent(i));
  }

  lemma CompleteTaskTrail(first: RunState, s: RunState, i: nat)
    requires Trail(first, s) && i < |s.memory.tasks|
    ensures Trail(first, CompleteTask(s, i))
  {
    SaveTrail(first, ListCompleted(SetTask(s, i, TaskCompleted), s.memory.tasks[i].id), TaskCompletedEvent(i));
  }

  lemma SuspendTaskTrail(first: RunState, s: RunState, i: nat)
    requires Trail(first, s) && i < |s.memory.tasks|
    ensures Trail(first, SuspendTask(s, i))
  {
    SaveTrail(first, SetGoal(SetTask(s, i, TaskWaiting), GoalWaiting), WaitingEvent);
  }

  lemma ConcludeTrail(first: RunState, end: TaskEnd, s: RunState, i: nat, world: World)
    requires Trail(first, s) && i < |s.memory.tasks|
    ensures Trail(first, Goals.Conclude(end, s, i, world).s)
  {
    match end
    case TaskSucceeded => CompleteTaskTrail(first, s, i);
    case TaskWaits => SuspendTaskTrail(first, s, i);
    case TaskFails(_) => FailTaskTrail(first, s, i);
    case TornDown =>
      assert Trail(first, Later(s));
      if world(s.tick).goalDeadline {
        EndGoalTrail(first, Later(s), GoalFailed, GoalFailedEvent);
      } else {
        FailTaskTrail(first, Later(s), i);
      }
  }

  lemma PerformTrail(first: RunState, s: RunState, i: nat, world: World)
    requires Trail(first, s) && i < |s.memory.tasks|
    ensures Trail(first, PerformAndConclude(s, i, world).s)
  {
    var (end, performed) := Perform(s, i, world);
    assert Trail(first, performed);
    ConcludeTrail(first, end, performed, i, world);
  }

  lemma WorkTrail(first: RunState, s: RunState, i: nat, world: World)
    requires Trail(first, s) && i < |s.memory.tasks|
    ensures Trail(first, WorkOn(s, i, world).s)
  {
    assert Trail(first, Later(s));
    if world(s.tick).cancel {
      FailTaskTrail(first, Later(s), i);
    } else {
      PerformTrail(first, Later(s), i, world);
    }
  }

  lemma BusyTrail(first: RunState, s: RunState, i: nat, world: World)
    requires Trail(first, s) && i < |s.memory.tasks|
    ensures Trail(first, WorkOn(StartTask(s, i), i, world).s)
  {
    StartTaskTrail(first, s, i);
    WorkTrail(first, StartTask(s, i), i, world);
  }

  lemma TurnTrail(first: RunState, s: RunState, i: nat, world: World)
    requires Trail(first, s) && i < |s.memory.tasks|
    ensures Trail(first, TaskTurn(s, i, world).s)
  {
    assert Trail(first, Later(s));
    if !Skips(s.memory, i) {
      if world(s.tick).cancel {
        EndGoalTrail(first, Later(s), GoalCancelled, GoalCancelledEvent);
      } else {
        BusyTrail(first, Later(s), i, world);
      }
    }
  }

  lemma VerifyTrail(first: RunState, s: RunState, world: World)
    requires Trail(first, s)
    ensures Trail(first, VerifyGoal(s, world))
  {
    EndGoalTrail(first, s, GoalVerifying, GoalVerifyingEvent);
    var looked := Later(EndGoal(s, GoalVerifying, GoalVerifyingEvent));
    assert Trail(first, looked);
    EndGoalTrail(first, looked, GoalFailed, GoalFailedEvent);
    EndGoalTrail(first, MarkComplete(looked), GoalCompleted, GoalCompletedEvent);
  }

  lemma {:induction false} RunTasksTrail(first: RunState, s: RunState, i: nat, world: World)
    requires Trail(first, s) && i <= |s.memory.tasks|
    ensures Trail(first, RunTasks(s, i, world))
    decreases |s.memory.tasks| - i
  {
    if i == |s.memory.tasks| {
      VerifyTrail(first, s, world);
    } else {
      var flow := TaskTurn(s, i, world);
      TurnTrail(first, s, i, world);
      if flow.Continue? {
        TurnKeepsTasks(s, i, world);
        RunTasksTrail(first, flow.s, i + 1, world);
      }
      RunTasksUnfolds(s, i, world);
    }
  }

  lemma RunTrail(s: RunState, world: World)
    requires s.emitted == [] && s.hasStore
    ensures Trail(s, Goals.Run(s, world))
  {
    if Refuse(s).None? {
      EndGoalTrail(s, s, GoalExecuting, GoalAcceptedEvent);
      RunTasksTrail(s, EndGoal(s, GoalExecuting, GoalAcceptedEvent), 0, world);
    } else if s.memory.goalState == GoalWaiting && s.goalClarification.Some? {
      SaveTwiceTrail(s, s.(memory := s.memory.(clarification := s.goalClarification)), GoalAcceptedEvent, WaitingEvent);
    } else {
      SaveTwiceTrail(s, s, GoalAcceptedEvent, GoalFailedEvent);
    }
  }

  /** Durable before visible, exactly: at an event the store holds the checkpoint of memory when
      the write before that event worked, or when it held that very checkpoint already; when the
      write failed it holds what it held at the event before, and the run goes on regardless. */
  lemma DurableExactly(s: RunState, world: World, k: nat)
    requires s.emitted == [] && s.hasStore && k < |Goals.Run(s, world).emitted|
    ensures var emitted := Goals.Run(s, world).emitted;
            var e := emitted[k];
            && e.writes > 0
            && (e.stored == Some(Checkpoint(e.memory)) <==>
                  s.works(e.writes - 1) || RowBefore(s, emitted, k) == Some(Checkpoint(e.memory)))
            && (!s.works(e.writes - 1) ==> e.stored == RowBefore(s, emitted, k))
  {
    RunTrail(s, world);
    assert LastWritten(s, Goals.Run(s, world).emitted, k);
  }
}
