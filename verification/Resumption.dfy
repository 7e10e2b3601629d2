/** Continuing a goal from a checkpoint. */
module Resumption {
  import opened Domain
  import opened Goals

  /** Where a resumed goal continues. */
  datatype Boundary =
    | NothingLeft
    | FromStep(task: nat, skipped: nat)
    | AllStepsVerified(task: nat)
    | Reverify(task: nat)
    | FromStart(task: nat)

  datatype Classification = VerifiedAndSafe | RequiresReverification | SafeToRetry

  function Classify(b: Boundary): Classification {
    match b
    case Reverify(_) => RequiresReverification
    case FromStart(_) => SafeToRetry
    case _ => VerifiedAndSafe
  }

  predicate Resumable(cp: GoalCheckpoint) {
    && cp.schemaVersion == SchemaVersion
    && !EndState(cp.goalState)
    && cp.resumable
    && !(cp.current < 0 || (cp.totalTasks > 0 && cp.current >= cp.totalTasks))
  }

  function MaxOf(s: seq<nat>): nat
    requires s != []
  {
    var last := s[|s| - 1];
    if |s| == 1 then last
    else
      var rest := MaxOf(s[..|s| - 1]);
      if last > rest then last else rest
  }

  /** The steps after `last`, in order. */
  function After(steps: seq<Step>, last: nat): seq<Step> {
    if steps == [] then []
    else After(steps[..|steps| - 1], last) + (if steps[|steps| - 1].index > last then [steps[|steps| - 1]] else [])
  }

  /** Renumbered and pending again. */
  function Reset(steps: seq<Step>): (r: seq<Step>)
    ensures |r| == |steps|
    ensures forall j :: 0 <= j < |steps| ==> r[j] == steps[j].(index := j, status := Pending)
  {
    seq(|steps|, j requires 0 <= j < |steps| => steps[j].(index := j, status := Pending))
  }

  /** The first unfinished task, with the steps its checkpoint calls verified cut off. */
  function Cut(t: Task, tcp: TaskCheckpoint): (Task, Boundary) {
    if t.work.Composite? && tcp.verifiedSteps != [] then
      var last := MaxOf(tcp.verifiedSteps);
      var rest := After(t.work.plan.steps, last);
      if rest != [] then (t.(work := Composite(t.work.plan.(steps := Reset(rest)))), FromStep(tcp.index, last + 1))
      else (t, AllStepsVerified(tcp.index))
    else if tcp.completedSteps != [] && tcp.verifiedSteps == [] then (t, Reverify(tcp.index))
    else (t, FromStart(tcp.index))
  }

  function Retain(m: Memory, tcp: TaskCheckpoint): Memory {
    m.(completedIds := if tcp.taskId in m.completedIds then m.completedIds else m.completedIds + [tcp.taskId],
       tasks := if tcp.index < |m.tasks| then m.tasks[tcp.index := m.tasks[tcp.index].(state := TaskCompleted)]
         else m.tasks)
  }

  /** Looks for the continuation boundary from the k-th task checkpoint on. */
  function Walk(tcps: seq<TaskCheckpoint>, k: nat, m: Memory): (Memory, Boundary)
    requires k <= |tcps|
    decreases |tcps| - k, 1
  {
    if k == |tcps| then (m.(current := 0), NothingLeft) else WalkOn(tcps, k, m)
  }

  predicate Finished(tcp: TaskCheckpoint) { tcp.state == TaskCompleted && tcp.isVerified }

  /** The k-th task checkpoint and, if its task is finished, those after it. */
  function WalkOn(tcps: seq<TaskCheckpoint>, k: nat, m: Memory): (Memory, Boundary)
    requires k < |tcps|
    decreases |tcps| - k, 0
  {
    if Finished(tcps[k]) then Walk(tcps, k + 1, Retain(m, tcps[k])) else StopAt(m, tcps[k])
  }

  /** The boundary lies in the task of this checkpoint. */
  function StopAt(m: Memory, tcp: TaskCheckpoint): (Memory, Boundary) {
    if tcp.index < |m.tasks| then
      var (task, boundary) := Cut(m.tasks[tcp.index], tcp);
      (m.(current := tcp.index, tasks := m.tasks[tcp.index := task]), boundary)
    else (m.(current := tcp.index), NothingLeft)
  }

  lemma WalkUnfolds(tcps: seq<TaskCheckpoint>, k: nat, m: Memory)
    requires k < |tcps|
    ensures Walk(tcps, k, m) == if Finished(tcps[k]) then Walk(tcps, k + 1, Retain(m, tcps[k])) else StopAt(m, tcps[k])
  {
    assert Walk(tcps, k, m) == WalkOn(tcps, k, m);
  }

  /** Without the goal, its tasks are rebuilt from the checkpoint: no intents, no sequence. */
  function Rebuild(tcps: seq<TaskCheckpoint>): (tasks: seq<Task>)
    ensures |tasks| == |tcps|
    ensures forall j :: 0 <= j < |tcps| ==> tasks[j] == Task(tcps[j].taskId, tcps[j].state, Plain(0), [])
  {
    seq(|tcps|, j requires 0 <= j < |tcps| => Task(tcps[j].taskId, tcps[j].state, Plain(0), []))
  }

  /** An execution context the caller passes along: the tasks it lists as completed and the
      question it still waits for. */
  datatype Context = Context(completedIds: seq<string>, clarification: Option<StepId>)

  /** The goal and context a resumption starts from. Without a context a fresh one is built; a
      context that is passed keeps its question unless the checkpoint has one. */
  function Initial(cp: GoalCheckpoint, goal: Option<Memory>, context: Option<Context>): Memory {
    var m := if goal.Some? then goal.value
             else Memory(cp.goalId, cp.goalState, false, Rebuild(cp.tasks), 0, [], None);
    if context.None? then m.(completedIds := [], clarification := cp.clarification)
    else m.(completedIds := context.value.completedIds,
            clarification := if cp.clarification.Some? then cp.clarification else context.value.clarification)
  }

  /** The memory a resumed goal runs from, and where. */
  function Resume(cp: GoalCheckpoint, goal: Option<Memory>, context: Option<Context>): (Memory, Boundary) {
    var (m, boundary) := Walk(cp.tasks, 0, Initial(cp, goal, context));
    (m.(goalState := GoalExecuting), boundary)
  }

  method CutTask(t: Task, tcp: TaskCheckpoint) returns (task: Task, boundary: Boundary)
    ensures (task, boundary) == Cut(t, tcp)
  {
    if t.work.Composite? && tcp.verifiedSteps != [] {
      var last := MaxOf(tcp.verifiedSteps);
      var steps := t.work.plan.steps;
      var rest: seq<Step> := [];
      for j := 0 to |steps|
        invariant rest == After(steps[..j], last)
      {
        assert steps[..j + 1][..j] == steps[..j];
        if steps[j].index > last {
          rest := rest + [steps[j]];
        }
      }
      assert steps[..|steps|] == steps;
      if rest != [] {
        ghost var cut := rest;
        for j := 0 to |rest|
          invariant |rest| == |cut|
          invariant forall k :: 0 <= k < |cut| ==> rest[k] == if k < j then Reset(cut)[k] else cut[k]
        {
          rest := rest[j := rest[j].(index := j, status := Pending)];
        }
        assert rest == Reset(cut);
        return t.(work := Composite(t.work.plan.(steps := rest))), FromStep(tcp.index, last + 1);
      }
      return t, AllStepsVerified(tcp.index);
    } else if tcp.completedSteps != [] && tcp.verifiedSteps == [] {
      return t, Reverify(tcp.index);
    }
    return t, FromStart(tcp.index);
  }

  /** Finds the continuation boundary and prepares the goal for it. */
  method FindBoundary(cp: GoalCheckpoint, goal: Option<Memory>, context: Option<Context>)
    returns (m: Memory, boundary: Boundary)
    ensures (m, boundary) == Resume(cp, goal, context)
  {
    m := Initial(cp, goal, context);
    boundary := NothingLeft;
    var resumeIndex := 0;
    for k := 0 to |cp.tasks|
      invariant boundary == NothingLeft && resumeIndex == 0
      invariant Walk(cp.tasks, k, m) == Walk(cp.tasks, 0, Initial(cp, goal, context))
    {
      var tcp := cp.tasks[k];
      WalkUnfolds(cp.tasks, k, m);
      if tcp.state == TaskCompleted && tcp.isVerified {
        if tcp.taskId !in m.completedIds {
          m := m.(completedIds := m.completedIds + [tcp.taskId]);
        }
        if tcp.index < |m.tasks| {
          m := m.(tasks := m.tasks[tcp.index := m.tasks[tcp.index].(state := TaskCompleted)]);
        }
      } else {
        resumeIndex := tcp.index;
        if tcp.index < |m.tasks| {
          var task;
          task, boundary := CutTask(m.tasks[tcp.index], tcp);
          m := m.(tasks := m.tasks[tcp.index := task]);
        }
        break;
      }
    }
    m := m.(current := resumeIndex, goalState := GoalExecuting);
  }
}
