/** How a goal run ends, event by event, told from the environment's answers and the ends of its
    tasks' sequence runs. */
module GoalEnds {
  import opened Domain
  import opened CompositeTask
  import opened Goals
  import opened CancelledGoal

  /** The events of a stretch of a run. */
  function Events(emitted: seq<Emitted>): (events: seq<Event>)
    ensures |events| == |emitted|
    ensures forall k :: 0 <= k < |events| ==> events[k] == emitted[k].event
  {
    seq(|emitted|, k requires 0 <= k < |emitted| => emitted[k].event)
  }

  /** From `s` to `t` these events were emitted. */
  ghost predicate Emits(s: RunState, t: RunState, events: seq<Event>) {
    |s.emitted| <= |t.emitted| && t.emitted[..|s.emitted|] == s.emitted && Events(t.emitted[|s.emitted|..]) == events
  }

  lemma EmitsOne(s: RunState, t: RunState, e: Event)
    requires t.emitted == s.emitted + [Emitted(e, t.stored, t.memory, t.writes)]
    ensures Emits(s, t, [e])
  {
    assert Events(t.emitted[|s.emitted|..]) == [e];
  }

  lemma EmitsThen(s: RunState, t: RunState, u: RunState, events: seq<Event>, more: seq<Event>)
    requires Emits(s, t, events) && Emits(t, u, more)
    ensures Emits(s, u, events + more)
  {
    assert u.emitted[|s.emitted|..] == t.emitted[|s.emitted|..] + u.emitted[|t.emitted|..];
    assert Events(u.emitted[|s.emitted|..]) == events + more;
  }

  // ---- refusals

  /** A goal that waits for an answer is not executed, nor one whose plan is invalid. */
  predicate Declines(s: RunState) {
    || (s.memory.goalState == GoalWaiting && s.goalClarification.Some?)
    || (s.memory.goalState == GoalFailed && s.invalidPlan)
  }

  /** A declined goal is only reported, waiting before invalid; its tasks, the outside world and the
      environment's answers are left alone. */
  lemma DeclinedExactly(s: RunState, world: World)
    ensures Refuse(s).Some? <==> Declines(s)
    ensures Declines(s) ==>
              var t, waits := Goals.Run(s, world), s.memory.goalState == GoalWaiting;
              && Emits(s, t, [GoalAcceptedEvent, if waits then WaitingEvent else GoalFailedEvent])
              && t.memory == (if waits then s.memory.(clarification := s.goalClarification) else s.memory)
              && t.effects == s.effects && t.tick == s.tick
  {
    if Declines(s) {
      var waits := s.memory.goalState == GoalWaiting;
      var last := if waits then WaitingEvent else GoalFailedEvent;
      var saved := Save(if waits then s.(memory := s.memory.(clarification := s.goalClarification)) else s);
      EmitsOne(s, Emit(saved, GoalAcceptedEvent), GoalAcceptedEvent);
      EmitsOne(Emit(saved, GoalAcceptedEvent), Emit(Emit(saved, GoalAcceptedEvent), last), last);
      EmitsThen(s, Emit(saved, GoalAcceptedEvent), Emit(Emit(saved, GoalAcceptedEvent), last), [GoalAcceptedEvent],
                [last]);
      assert [GoalAcceptedEvent] + [last] == [GoalAcceptedEvent, last];
    }
  }

  // ---- one turn

  /** How the work on task `k` ends that starts at `tick`, and the tick behind it. */
  function WorkEnd(m: Memory, k: nat, world: World, tick: nat): (TaskEnd, nat)
    requires k < |m.tasks|
  {
    match m.tasks[k].work
    case Composite(plan) => (RunTask(plan, world, tick).end, RunTask(plan, world, tick).state.tick)
    case Plain(n) =>
      if n == 0 then (TaskSucceeded, tick)
      else if world(tick).strike == OuterDeadline then (TornDown, tick + 1)
      else if world(tick).plain == PlainSucceeds then (TaskSucceeded, tick + 1)
      else if world(tick).plain == PlainWaits then (TaskWaits, tick + 1)
      else (TaskFails(None), tick + 1)
  }

  /** The ways a turn may end. */
  datatype TurnEnd = HeadCancelled | TaskDone | TaskAsks | TaskLost | GoalTimedOut

  /** The turn whose task ends so; a torn-down task looks whether the goal's own deadline struck. */
  function EndBehind(end: TaskEnd, later: nat, world: World): TurnEnd {
    match end
    case TaskSucceeded => TaskDone
    case TaskWaits => TaskAsks
    case TaskFails(_) => TaskLost
    case TornDown => if world(later).goalDeadline then GoalTimedOut else TaskLost
  }

  /** The same behind TASK_STARTED. */
  function BusyEnds(m: Memory, k: nat, world: World, tick: nat): TurnEnd
    requires k < |m.tasks|
  {
    if world(tick).cancel then TaskLost
    else
      var (end, later) := WorkEnd(m, k, world, tick + 1);
      EndBehind(end, later, world)
  }

  /** How the turn of task `k` ends that begins at `tick`, for a task that is not skipped: the cancel
      event is looked at before and after TASK_STARTED. */
  function TurnEnds(m: Memory, k: nat, world: World, tick: nat): TurnEnd
    requires k < |m.tasks|
  {
    if world(tick).cancel then HeadCancelled else BusyEnds(m, k, world, tick + 1)
  }

  /** The events of such a turn. */
  function TurnEventsOf(end: TurnEnd, k: nat): seq<Event> {
    match end
    case HeadCancelled => [GoalCancelledEvent]
    case TaskDone => [TaskStartedEvent(k), TaskCompletedEvent(k)]
    case TaskAsks => [TaskStartedEvent(k), WaitingEvent]
    case TaskLost => [TaskStartedEvent(k), TaskFailedEvent(k), GoalFailedEvent]
    case GoalTimedOut => [TaskStartedEvent(k), GoalFailedEvent]
  }

  /** What such a turn leaves of the states in memory. */
  ghost predicate TurnLeaves(m: Memory, after: Memory, k: nat, end: TurnEnd)
    requires k < |m.tasks|
  {
    && |after.tasks| == |m.tasks| && after.isComplete == m.isComplete && after.goalId == m.goalId
    && (forall j :: 0 <= j < |m.tasks| && j != k ==> after.tasks[j] == m.tasks[j])
    && after.tasks[k].id == m.tasks[k].id
    && after.current == (if end == HeadCancelled then m.current else k)
    && match end
       case HeadCancelled =>
         after.tasks == m.tasks && after.goalState == GoalCancelled && after.completedIds == m.completedIds
       case TaskDone =>
         && after.tasks[k].state == TaskCompleted && after.goalState == m.goalState
         && after.completedIds == m.completedIds + [m.tasks[k].id]
       case TaskAsks =>
         after.tasks[k].state == TaskWaiting && after.goalState == GoalWaiting && after.completedIds == m.completedIds
       case TaskLost =>
         after.tasks[k].state == TaskFailed && after.goalState == GoalFailed && after.completedIds == m.completedIds
       case GoalTimedOut =>
         after.tasks[k].state == TaskExecuting && after.goalState == GoalFailed && after.completedIds == m.completedIds
  }

  /** A turn, as events and states. */
  ghost predicate TurnTold(s: RunState, flow: Flow, k: nat, end: TurnEnd)
    requires k < |s.memory.tasks|
  {
    && (flow.Continue? <==> end == TaskDone)
    && Emits(s, flow.s, TurnEventsOf(end, k)) && TurnLeaves(s.memory, flow.s.memory, k, end)
  }

  lemma EndGoalEmits(s: RunState, g: GoalStatus, e: Event)
    ensures Emits(s, EndGoal(s, g, e), [e])
    ensures EndGoal(s, g, e).memory == s.memory.(goalState := g) && EndGoal(s, g, e).tick == s.tick
  {
    EmitsOne(s, EndGoal(s, g, e), e);
  }

  lemma FailTaskEmits(s: RunState, k: nat)
    requires k < |s.memory.tasks|
    ensures Emits(s, FailTask(s, k), [TaskFailedEvent(k), GoalFailedEvent])
  {
    var saved := Save(SetGoal(SetTask(s, k, TaskFailed), GoalFailed));
    EmitsOne(s, Emit(saved, TaskFailedEvent(k)), TaskFailedEvent(k));
    EmitsOne(Emit(saved, TaskFailedEvent(k)), FailTask(s, k), GoalFailedEvent);
    EmitsThen(s, Emit(saved, TaskFailedEvent(k)), FailTask(s, k), [TaskFailedEvent(k)], [GoalFailedEvent]);
    assert [TaskFailedEvent(k)] + [GoalFailedEvent] == [TaskFailedEvent(k), GoalFailedEvent];
  }

  /** What follows the work on task `k`. */
  function EventsBehind(end: TurnEnd, k: nat): seq<Event> {
    match end
    case HeadCancelled => [GoalCancelledEvent]
    case TaskDone => [TaskCompletedEvent(k)]
    case TaskAsks => [WaitingEvent]
    case TaskLost => [TaskFailedEvent(k), GoalFailedEvent]
    case GoalTimedOut => [GoalFailedEvent]
  }

  /** What the conclusion leaves of memory. */
  ghost predicate Concluded(m: Memory, after: Memory, k: nat, end: TurnEnd)
    requires k < |m.tasks|
  {
    && after.isComplete == m.isComplete && after.goalId == m.goalId && after.current == m.current
    && match end
       case HeadCancelled => false
       case TaskDone =>
         && after.tasks == m.tasks[k := m.tasks[k].(state := TaskCompleted)] && after.goalState == m.goalState
         && after.completedIds == m.completedIds + [m.tasks[k].id]
       case TaskAsks =>
         && after.tasks == m.tasks[k := m.tasks[k].(state := TaskWaiting)] && after.goalState == GoalWaiting
         && after.completedIds == m.completedIds
       case TaskLost =>
         && after.tasks == m.tasks[k := m.tasks[k].(state := TaskFailed)] && after.goalState == GoalFailed
         && after.completedIds == m.completedIds
       case GoalTimedOut =>
         after.tasks == m.tasks && after.goalState == GoalFailed && after.completedIds == m.completedIds
  }

  lemma ConcludeTells(end: TaskEnd, s: RunState, k: nat, world: World)
    requires k < |s.memory.tasks|
    ensures var flow, told := Goals.Conclude(end, s, k, world), EndBehind(end, s.tick, world);
            && (flow.Continue? <==> told == TaskDone)
            && Emits(s, flow.s, EventsBehind(told, k)) && Concluded(s.memory, flow.s.memory, k, told)
  {
    match end
    case TaskSucceeded => EmitsOne(s, CompleteTask(s, k), TaskCompletedEvent(k));
    case TaskWaits => EmitsOne(s, SuspendTask(s, k), WaitingEvent);
    case TaskFails(_) => FailTaskEmits(s, k);
    case TornDown =>
      if world(s.tick).goalDeadline {
        EndGoalEmits(Later(s), GoalFailed, GoalFailedEvent);
      } else {
        FailTaskEmits(Later(s), k);
      }
  }

  lemma PerformTells(s: RunState, k: nat, world: World)
    requires k < |s.memory.tasks|
    ensures var (end, t) := Perform(s, k, world);
            && (end, t.tick) == WorkEnd(s.memory, k, world, s.tick) && t.emitted == s.emitted
            && |t.memory.tasks| == |s.memory.tasks|
            && (forall j :: 0 <= j < |s.memory.tasks| && j != k ==> t.memory.tasks[j] == s.memory.tasks[j])
            && t.memory.tasks[k].id == s.memory.tasks[k].id && t.memory.tasks[k].state == s.memory.tasks[k].state
            && t.memory == s.memory.(tasks := t.memory.tasks, clarification := t.memory.clarification)
  {}

  /** Task `k` has been started. */
  predicate Begun(m: Memory, now: Memory, k: nat) {
    && k < |now.tasks| == |m.tasks|
    && now == m.(current := k, tasks := m.tasks[k := m.tasks[k].(state := TaskExecuting)])
  }

  lemma SameWork(m: Memory, now: Memory, k: nat, world: World, tick: nat)
    requires Begun(m, now, k)
    ensures WorkEnd(m, k, world, tick) == WorkEnd(now, k, world, tick)
  {}

  lemma PerformedTells(s: RunState, k: nat, world: World, m: Memory)
    requires Begun(m, s.memory, k)
    ensures var flow := PerformAndConclude(s, k, world);
            var (end, later) := WorkEnd(m, k, world, s.tick);
            var told := EndBehind(end, later, world);
            && (flow.Continue? <==> told == TaskDone)
            && Emits(s, flow.s, EventsBehind(told, k)) && TurnLeaves(m, flow.s.memory, k, told)
  {
    var (end, t) := Perform(s, k, world);
    SameWork(m, s.memory, k, world, s.tick);
    PerformTells(s, k, world);
    ConcludeTells(end, t, k, world);
  }

  /** The work on a started task. */
  lemma WorkTells(s: RunState, k: nat, world: World, m: Memory)
    requires Begun(m, s.memory, k)
    ensures var flow, told := WorkOn(s, k, world), BusyEnds(m, k, world, s.tick);
            && (flow.Continue? <==> told == TaskDone)
            && Emits(s, flow.s, EventsBehind(told, k)) && TurnLeaves(m, flow.s.memory, k, told)
  {
    if world(s.tick).cancel {
      FailTaskEmits(Later(s), k);
    } else {
      PerformedTells(Later(s), k, world, m);
    }
  }

  lemma StartTells(s: RunState, k: nat)
    requires k < |s.memory.tasks|
    ensures var begun := StartTask(s, k);
            Emits(s, begun, [TaskStartedEvent(k)]) && Begun(s.memory, begun.memory, k) && begun.tick == s.tick
  {
    EmitsOne(s, StartTask(s, k), TaskStartedEvent(k));
  }

  lemma BusyTold(s: RunState, begun: RunState, flow: Flow, k: nat, end: TurnEnd)
    requires k < |s.memory.tasks| && Emits(s, begun, [TaskStartedEvent(k)])
    requires Emits(begun, flow.s, EventsBehind(end, k)) && TurnLeaves(s.memory, flow.s.memory, k, end)
    requires end != HeadCancelled && (flow.Continue? <==> end == TaskDone)
    ensures TurnTold(s, flow, k, end)
  {
    EmitsThen(s, begun, flow.s, [TaskStartedEvent(k)], EventsBehind(end, k));
    assert [TaskStartedEvent(k)] + EventsBehind(end, k) == TurnEventsOf(end, k);
  }

  lemma BusyTurnTells(s: RunState, k: nat, world: World)
    requires k < |s.memory.tasks| && !world(s.tick).cancel
    ensures TurnTold(s, WorkOn(StartTask(Later(s), k), k, world), k, TurnEnds(s.memory, k, world, s.tick))
  {
    var begun := StartTask(Later(s), k);
    StartTells(Later(s), k);
    WorkTells(begun, k, world, s.memory);
    BusyTold(s, begun, WorkOn(begun, k, world), k, TurnEnds(s.memory, k, world, s.tick));
  }

  /** A turn of the task loop on a task it does not skip, told from the answers: its events and the
      states it leaves. */
  lemma TurnExactly(s: RunState, k: nat, world: World)
    requires k < |s.memory.tasks|
    requires !(s.memory.tasks[k].state == TaskCompleted && s.memory.tasks[k].id in s.memory.completedIds)
    ensures TurnTold(s, TaskTurn(s, k, world), k, TurnEnds(s.memory, k, world, s.tick))
  {
    if world(s.tick).cancel {
      EndGoalEmits(Later(s), GoalCancelled, GoalCancelledEvent);
    } else {
      BusyTurnTells(s, k, world);
    }
  }

  /** What the goal asks the user behind a task's work: what the task's run asks, if it does. */
  function AskedBehind(m: Memory, k: nat, world: World, tick: nat): Option<StepId>
    requires k < |m.tasks|
  {
    match m.tasks[k].work
    case Plain(_) => m.clarification
    case Composite(plan) =>
      var asked := RunTask(plan, world, tick).state.clarification;
      if asked.Some? then asked else m.clarification
  }

  lemma ConcludeAsks(end: TaskEnd, s: RunState, k: nat, world: World)
    requires k < |s.memory.tasks|
    ensures Goals.Conclude(end, s, k, world).s.memory.clarification == s.memory.clarification
  {}

  lemma PerformAsks(s: RunState, k: nat, world: World)
    requires k < |s.memory.tasks|
    ensures PerformAndConclude(s, k, world).s.memory.clarification == AskedBehind(s.memory, k, world, s.tick)
  {
    var (end, t) := Perform(s, k, world);
    ConcludeAsks(end, t, k, world);
  }

  lemma SameAsked(m: Memory, now: Memory, k: nat, world: World, tick: nat)
    requires Begun(m, now, k)
    ensures AskedBehind(now, k, world, tick) == AskedBehind(m, k, world, tick) && now.clarification == m.clarification
  {}

  lemma WorkAsks(s: RunState, k: nat, world: World, m: Memory)
    requires Begun(m, s.memory, k)
    ensures WorkOn(s, k, world).s.memory.clarification
         == if world(s.tick).cancel then m.clarification else AskedBehind(m, k, world, s.tick + 1)
  {
    SameAsked(m, s.memory, k, world, s.tick + 1);
    if !world(s.tick).cancel {
      PerformAsks(Later(s), k, world);
    }
  }

  lemma BusyAsks(s: RunState, k: nat, world: World)
    requires k < |s.memory.tasks|
    ensures WorkOn(StartTask(s, k), k, world).s.memory.clarification
         == if world(s.tick).cancel then s.memory.clarification else AskedBehind(s.memory, k, world, s.tick + 1)
  {
    StartTells(s, k);
    WorkAsks(StartTask(s, k), k, world, s.memory);
  }

  /** What a turn leaves asked: what the task's run asks, if it ran and does, and what was asked before
      otherwise. */
  lemma TurnAsks(s: RunState, k: nat, world: World)
    requires k < |s.memory.tasks|
    requires !(s.memory.tasks[k].state == TaskCompleted && s.memory.tasks[k].id in s.memory.completedIds)
    ensures TaskTurn(s, k, world).s.memory.clarification
         == if world(s.tick).cancel || world(s.tick + 1).cancel then s.memory.clarification
            else AskedBehind(s.memory, k, world, s.tick + 2)
  {
    if !world(s.tick).cancel {
      BusyAsks(Later(s), k, world);
    }
  }

  // ---- the verification of the goal

  /** The environment's answer lets the goal be complete: every task is, no deadline strikes, and the goal
      is found achieved, or no task had any work. */
  predicate Achieved(m: Memory, o: Obs) {
    && (forall k :: 0 <= k < |m.tasks| ==> m.tasks[k].state == TaskCompleted)
    && o.strike != OuterDeadline
    && (o.goalVerified || forall k :: 0 <= k < |m.tasks| ==> m.tasks[k].work == Plain(0))
  }

  ghost predicate VerifiedAs(s: RunState, t: RunState, achieved: bool) {
    && Emits(s, t, [GoalVerifyingEvent, if achieved then GoalCompletedEvent else GoalFailedEvent])
    && t.memory == s.memory.(goalState := if achieved then GoalCompleted else GoalFailed,
                             isComplete := achieved || s.memory.isComplete)
  }

  lemma VerifyTells(s: RunState, world: World)
    ensures VerifiedAs(s, VerifyGoal(s, world), Achieved(s.memory, world(s.tick)))
  {
    var verifying := EndGoal(s, GoalVerifying, GoalVerifyingEvent);
    var looked := Later(verifying);
    EndGoalEmits(s, GoalVerifying, GoalVerifyingEvent);
    EndGoalEmits(looked, GoalFailed, GoalFailedEvent);
    EndGoalEmits(MarkComplete(looked), GoalCompleted, GoalCompletedEvent);
    var e := if Achieved(s.memory, world(s.tick)) then GoalCompletedEvent else GoalFailedEvent;
    EmitsThen(s, verifying, VerifyGoal(s, world), [GoalVerifyingEvent], [e]);
    assert [GoalVerifyingEvent] + [e] == [GoalVerifyingEvent, e];
  }

  // ---- the run

  /** The state in which the loop ends with all tasks behind it, if it gets there. */
  function LastHead(s: RunState, world: World): Option<RunState> { HeadAt(Opening(s), 0, |s.memory.tasks|, world) }

  lemma EmitsEnds(s: RunState, t: RunState, events: seq<Event>)
    requires Emits(s, t, events) && events != []
    ensures EndsWith(t, events[|events| - 1])
  {
    assert Events(t.emitted[|s.emitted|..])[|events| - 1] == events[|events| - 1];
  }

  /** The last event is neither that of a completed goal nor of one at work. */
  ghost predicate EndsOtherwise(t: RunState) {
    exists e :: EndsWith(t, e) && e in {GoalCancelledEvent, GoalFailedEvent, WaitingEvent}
  }

  lemma TurnStops(s: RunState, i: nat, world: World)
    requires i < |s.memory.tasks| && TaskTurn(s, i, world).Return?
    ensures EndsOtherwise(TaskTurn(s, i, world).s)
  {
    TurnExactly(s, i, world);
    var events := TurnEventsOf(TurnEnds(s.memory, i, world, s.tick), i);
    EmitsEnds(s, TaskTurn(s, i, world).s, events);
    assert events[|events| - 1] in {GoalCancelledEvent, GoalFailedEvent, WaitingEvent};
  }

  /** So ends a task loop that does not get behind its last task. */
  lemma {:induction false} StopsBefore(s: RunState, i: nat, world: World)
    requires i <= |s.memory.tasks| && HeadAt(s, i, |s.memory.tasks|, world).None?
    ensures EndsOtherwise(RunTasks(s, i, world))
    decreases |s.memory.tasks| - i
  {
    var flow := TaskTurn(s, i, world);
    if flow.Continue? {
      HeadAtUnfolds(s, i, |s.memory.tasks|, world);
      StopsBefore(flow.s, i + 1, world);
    } else {
      TurnStops(s, i, world);
    }
    RunTasksUnfolds(s, i, world);
  }

  lemma VerifiedEnds(s: RunState, t: RunState, achieved: bool)
    requires VerifiedAs(s, t, achieved)
    ensures EndsWith(t, if achieved then GoalCompletedEvent else GoalFailedEvent)
  {
    EmitsEnds(s, t, [GoalVerifyingEvent, if achieved then GoalCompletedEvent else GoalFailedEvent]);
  }

  lemma DeclinedEnds(s: RunState, world: World)
    requires Declines(s)
    ensures EndsOtherwise(Goals.Run(s, world))
  {
    DeclinedExactly(s, world);
    var last := if s.memory.goalState == GoalWaiting then WaitingEvent else GoalFailedEvent;
    EmitsEnds(s, Goals.Run(s, world), [GoalAcceptedEvent, last]);
    assert EndsWith(Goals.Run(s, world), last);
  }

  /** A goal whose loop gets behind its last task is verified there, and nothing more. */
  lemma GoalVerified(s: RunState, world: World)
    requires !Declines(s) && LastHead(s, world).Some?
    ensures var head := LastHead(s, world).value;
            VerifiedAs(head, Goals.Run(s, world), Achieved(head.memory, world(head.tick)))
  {
    DeclinedExactly(s, world);
    var head := HeadDecides(Opening(s), 0, |s.memory.tasks|, world);
    VerifyTells(head, world);
  }

  /** A goal is reported complete exactly when it is not declined, its loop gets behind its last task,
      and the answer read there lets it be; a goal that gets there is else reported failed. */
  lemma GoalCompletedExactly(s: RunState, world: World)
    ensures EndsWith(Goals.Run(s, world), GoalCompletedEvent) <==>
              && !Declines(s) && LastHead(s, world).Some?
              && Achieved(LastHead(s, world).value.memory, world(LastHead(s, world).value.tick))
    ensures !Declines(s) && LastHead(s, world).Some? ==>
              var head := LastHead(s, world).value;
              VerifiedAs(head, Goals.Run(s, world), Achieved(head.memory, world(head.tick)))
  {
    if Declines(s) {
      DeclinedEnds(s, world);
    } else if LastHead(s, world).Some? {
      var head := LastHead(s, world).value;
      GoalVerified(s, world);
      VerifiedEnds(head, Goals.Run(s, world), Achieved(head.memory, world(head.tick)));
    } else {
      DeclinedExactly(s, world);
      StopsBefore(Opening(s), 0, world);
    }
  }

  /** A goal whose loop reaches task `k`, does not skip it and does not get behind it ends with that
      turn: its last events and the states in memory are those the answers tell. */
  lemma GoalStopsExactly(s: RunState, k: nat, world: World)
    requires !Declines(s) && k < |s.memory.tasks| && HeadAt(Opening(s), 0, k, world).Some?
    requires var head := HeadAt(Opening(s), 0, k, world).value;
      && k < |head.memory.tasks|
      && !(head.memory.tasks[k].state == TaskCompleted && head.memory.tasks[k].id in head.memory.completedIds)
      && TurnEnds(head.memory, k, world, head.tick) != TaskDone
    ensures var t, head := Goals.Run(s, world), HeadAt(Opening(s), 0, k, world).value;
            var end := TurnEnds(head.memory, k, world, head.tick);
            Emits(head, t, TurnEventsOf(end, k)) && TurnLeaves(head.memory, t.memory, k, end)
  {
    DeclinedExactly(s, world);
    var head := HeadDecides(Opening(s), 0, k, world);
    TurnExactly(head, k, world);
    RunTasksUnfolds(head, k, world);
  }
}
