/** Aborting a goal: safe compensations for what can be undone, a truthful list of what cannot. */
module Rollback {
  import opened Domain
  import opened Goals
  import Resumption

  /** A call of the compensation of a step of the task at this position. */
  datatype Call = Call(task: nat, id: StepId)

  /** The report of a rollback in progress: compensations executed, with their success, and
      steps left unresolved; `calls` lists what was called, raising or not. */
  datatype Report = Report(executed: seq<(StepId, bool)>, unresolved: seq<StepId>, calls: seq<Call>, tick: nat)

  /** One step of task `i`: nothing was actuated, there is nothing to undo it with, or its
      compensation is called and may raise. */
  function VisitStep(i: nat, s: Step, r: Report, world: World): (Step, Report) {
    if !s.accepted then (s, r)
    else if s.spec.compensation.None? then (s, r.(unresolved := r.unresolved + [s.id]))
    else
      var o := world(r.tick);
      var called := r.(calls := r.calls + [Call(i, s.id)], tick := r.tick + 1);
      if o.raises then (s, called.(unresolved := r.unresolved + [s.id]))
      else (s.(undo := s.undo.(executed := o.success)), called.(executed := r.executed + [(s.id, o.success)]))
  }

  /** The first `n` steps, last one first. */
  function VisitSteps(i: nat, steps: seq<Step>, n: nat, r: Report, world: World): (seq<Step>, Report)
    requires n <= |steps|
    decreases n
  {
    if n == 0 then (steps, r)
    else
      var (s, next) := VisitStep(i, steps[n - 1], r, world);
      VisitSteps(i, steps[n - 1 := s], n - 1, next, world)
  }

  function VisitTask(i: nat, t: Task, r: Report, world: World): (Task, Report) {
    if t.work.Plain? then (t, r)
    else
      var (steps, next) := VisitSteps(i, t.work.plan.steps, |t.work.plan.steps|, r, world);
      (t.(work := Composite(t.work.plan.(steps := steps))), next)
  }

  /** The first `n` tasks, last one first. */
  function VisitTasks(tasks: seq<Task>, n: nat, r: Report, world: World): (seq<Task>, Report)
    requires n <= |tasks|
    decreases n
  {
    if n == 0 then (tasks, r)
    else
      var (t, next) := VisitTask(n - 1, tasks[n - 1], r, world);
      VisitTasks(tasks[n - 1 := t], n - 1, next, world)
  }

  /** Marks the stored checkpoint, if there is one, non-resumable; a failing write is raised. */
  function Mark(s: RunState): RunState {
    if s.hasStore && s.stored.Some? then Write(s, s.stored.value.(resumable := false)) else s
  }

  predicate MarkRaises(s: RunState) { s.hasStore && s.stored.Some? && !s.works(s.writes) }

  /** The memory after the compensations, saved, and the report of the rollback. */
  function RolledBack(s: RunState, world: World): (RunState, Report) {
    var (tasks, report) := VisitTasks(s.memory.tasks, |s.memory.tasks|, Report([], [], [], s.tick), world);
    (Save(s.(memory := s.memory.(goalState := GoalFailed, tasks := tasks), tick := report.tick)), report)
  }

  /** What an abort leaves, its report, and whether the store's error is raised in its place. */
  function Abort(s: RunState, world: World): (RunState, Report, bool) {
    var (saved, report) := RolledBack(s, world);
    (Mark(saved), report, MarkRaises(saved))
  }

  method RollbackSteps(i: nat, steps: seq<Step>, before: Report, world: World)
    returns (after: seq<Step>, report: Report)
    ensures (after, report) == VisitSteps(i, steps, |steps|, before, world)
  {
    after, report := steps, before;
    var n := |steps|;
    while n > 0
      invariant 0 <= n <= |after| == |steps|
      invariant VisitSteps(i, after, n, report, world) == VisitSteps(i, steps, |steps|, before, world)
    {
      n := n - 1;
      var step := after[n];
      if step.accepted && step.spec.compensation.Some? {
        var o := world(report.tick);
        report := report.(calls := report.calls + [Call(i, step.id)], tick := report.tick + 1);
        if o.raises {
          report := report.(unresolved := report.unresolved + [step.id]);
        } else {
          after := after[n := step.(undo := step.undo.(executed := o.success))];
          report := report.(executed := report.executed + [(step.id, o.success)]);
        }
      } else if step.accepted {
        report := report.(unresolved := report.unresolved + [step.id]);
      }
      assert after[n := after[n]] == after;
    }
  }

  method RollbackTasks(tasks: seq<Task>, world: World, tick: nat) returns (after: seq<Task>, report: Report)
    ensures (after, report) == VisitTasks(tasks, |tasks|, Report([], [], [], tick), world)
  {
    after, report := tasks, Report([], [], [], tick);
    var n := |tasks|;
    while n > 0
      invariant 0 <= n <= |after| == |tasks|
      invariant VisitTasks(after, n, report, world) == VisitTasks(tasks, |tasks|, Report([], [], [], tick), world)
    {
      n := n - 1;
      if after[n].work.Composite? {
        var steps;
        steps, report := RollbackSteps(n, after[n].work.plan.steps, report, world);
        after := after[n := after[n].(work := Composite(after[n].work.plan.(steps := steps)))];
      }
      assert after[n := after[n]] == after;
    }
  }

  // ---- accounting

  /** A step of the task at this position. */
  datatype Visit = Visit(task: nat, step: Step)

  function Accepted(i: nat, steps: seq<Step>): seq<Visit> {
    if steps == [] then []
    else
      var last := steps[|steps| - 1];
      (if last.accepted then [Visit(i, last)] else []) + Accepted(i, steps[..|steps| - 1])
  }

  /** The accepted steps of all tasks in memory, last task and last step first. */
  function AllAccepted(tasks: seq<Task>): seq<Visit> {
    if tasks == [] then []
    else Accepted(|tasks| - 1, StepsOf(tasks[|tasks| - 1])) + AllAccepted(tasks[..|tasks| - 1])
  }

  /** The calls that these visits, first one first, make. */
  function Calls(visited: seq<Visit>): seq<Call> {
    if visited == [] then []
    else
      var v := visited[|visited| - 1];
      Calls(visited[..|visited| - 1]) + if v.step.spec.compensation.Some? then [Call(v.task, v.step.id)] else []
  }

  /** The answer to the call of the visit behind these, the first one being read at `start`. */
  function AnswerBehind(visited: seq<Visit>, world: World, start: nat): Obs { world(start + |Calls(visited)|) }

  /** The visit calls a compensation, and the call does not raise. */
  predicate Resolves(v: Visit, o: Obs) { v.step.spec.compensation.Some? && !o.raises }

  /** The compensations that were executed, each with the success its answer tells. */
  function ExecutedOf(visited: seq<Visit>, world: World, start: nat): seq<(StepId, bool)> {
    if visited == [] then []
    else
      var front, v := visited[..|visited| - 1], visited[|visited| - 1];
      var o := AnswerBehind(front, world, start);
      ExecutedOf(front, world, start) + if Resolves(v, o) then [(v.step.id, o.success)] else []
  }

  /** The steps that cannot be undone: they have no compensation, or its call raises. */
  function UnresolvedOf(visited: seq<Visit>, world: World, start: nat): seq<StepId> {
    if visited == [] then []
    else
      var front, v := visited[..|visited| - 1], visited[|visited| - 1];
      UnresolvedOf(front, world, start) + if Resolves(v, AnswerBehind(front, world, start)) then [] else [v.step.id]
  }

  /** What a report says after these visits. */
  ghost predicate Reports(r: Report, visited: seq<Visit>, world: World, start: nat) {
    && r.executed == ExecutedOf(visited, world, start) && r.unresolved == UnresolvedOf(visited, world, start)
    && r.calls == Calls(visited) && r.tick == start + |Calls(visited)|
  }

  lemma ReportStep(i: nat, visited: seq<Visit>, s: Step, r: Report, world: World, start: nat)
    requires Reports(r, visited, world, start) && s.accepted
    ensures Reports(VisitStep(i, s, r, world).1, visited + [Visit(i, s)], world, start)
  {
    assert (visited + [Visit(i, s)])[..|visited|] == visited;
  }

  lemma AcceptedSnoc(i: nat, steps: seq<Step>, n: nat, visited: seq<Visit>)
    requires 0 < n <= |steps|
    ensures visited + Accepted(i, steps[..n])
         == (if steps[n - 1].accepted then visited + [Visit(i, steps[n - 1])] else visited)
           + Accepted(i, steps[..n - 1])
  {
    assert steps[..n][..n - 1] == steps[..n - 1];
  }

  lemma {:induction false} VisitStepsReports(i: nat, steps: seq<Step>, n: nat, r: Report, world: World,
                                             visited: seq<Visit>, start: nat)
    requires n <= |steps| && Reports(r, visited, world, start)
    ensures Reports(VisitSteps(i, steps, n, r, world).1, visited + Accepted(i, steps[..n]), world, start)
    decreases n
  {
    if n == 0 {
      assert visited + Accepted(i, steps[..0]) == visited;
    } else {
      var step := steps[n - 1];
      var (s, next) := VisitStep(i, step, r, world);
      var rest := steps[n - 1 := s];
      assert rest[..n - 1] == steps[..n - 1];
      AcceptedSnoc(i, steps, n, visited);
      if step.accepted {
        ReportStep(i, visited, step, r, world, start);
        VisitStepsReports(i, rest, n - 1, next, world, visited + [Visit(i, step)], start);
      } else {
        VisitStepsReports(i, rest, n - 1, next, world, visited, start);
      }
    }
  }

  lemma VisitTaskReports(i: nat, t: Task, r: Report, world: World, visited: seq<Visit>, start: nat)
    requires Reports(r, visited, world, start)
    ensures Reports(VisitTask(i, t, r, world).1, visited + Accepted(i, StepsOf(t)), world, start)
  {
    var steps := StepsOf(t);
    VisitStepsReports(i, steps, |steps|, r, world, visited, start);
    assert steps[..|steps|] == steps;
    if t.work.Plain? {
      assert visited + Accepted(i, steps) == visited;
    }
  }

  lemma AllAcceptedSnoc(tasks: seq<Task>, n: nat, visited: seq<Visit>)
    requires 0 < n <= |tasks|
    ensures visited + AllAccepted(tasks[..n])
         == (visited + Accepted(n - 1, StepsOf(tasks[n - 1]))) + AllAccepted(tasks[..n - 1])
  {
    assert tasks[..n][..n - 1] == tasks[..n - 1];
  }

  lemma {:induction false} VisitTasksReports(tasks: seq<Task>, n: nat, r: Report, world: World, visited: seq<Visit>,
                                             start: nat)
    requires n <= |tasks| && Reports(r, visited, world, start)
    ensures Reports(VisitTasks(tasks, n, r, world).1, visited + AllAccepted(tasks[..n]), world, start)
    decreases n
  {
    if n == 0 {
      assert visited + AllAccepted(tasks[..0]) == visited;
    } else {
      var (t, next) := VisitTask(n - 1, tasks[n - 1], r, world);
      VisitTaskReports(n - 1, tasks[n - 1], r, world, visited, start);
      AllAcceptedSnoc(tasks, n, visited);
      var rest := tasks[n - 1 := t];
      assert rest[..n - 1] == tasks[..n - 1];
      VisitTasksReports(rest, n - 1, next, world, visited + Accepted(n - 1, StepsOf(tasks[n - 1])), start);
    }
  }

  lemma {:induction false} ListsCount(visited: seq<Visit>, world: World, start: nat)
    ensures |ExecutedOf(visited, world, start)| + |UnresolvedOf(visited, world, start)| == |visited|
  {
    if visited != [] {
      ListsCount(visited[..|visited| - 1], world, start);
    }
  }

  lemma AbortReports(s: RunState, world: World)
    ensures Reports(Abort(s, world).1, AllAccepted(s.memory.tasks), world, s.tick)
  {
    var tasks := s.memory.tasks;
    VisitTasksReports(tasks, |tasks|, Report([], [], [], s.tick), world, [], s.tick);
    assert tasks[..|tasks|] == tasks && [] + AllAccepted(tasks) == AllAccepted(tasks);
  }

  /** Rollback accounts for what memory holds: it visits every accepted step of the sequences in
      memory, tasks and steps in reverse, and lists it as executed, with the success its answer
      tells, exactly if it has a compensation and the call does not raise; the others it lists as
      unresolved. The checkpoint it leaves can still be resumed exactly when marking it failed and it
      could be resumed before, or was only now saved; then the store's error is raised. */
  lemma RollbackAccounts(s: RunState, world: World)
    ensures var (t, report, raised) := Abort(s, world);
            && report.executed == ExecutedOf(AllAccepted(s.memory.tasks), world, s.tick)
            && report.unresolved == UnresolvedOf(AllAccepted(s.memory.tasks), world, s.tick)
            && |report.executed| + |report.unresolved| == |AllAccepted(s.memory.tasks)|
            && t.memory.goalState == GoalFailed
            && (s.hasStore && t.stored.Some? && t.stored.value.resumable <==>
                  raised && (s.works(s.writes) || s.stored.value.resumable))
  {
    AbortReports(s, world);
    ListsCount(AllAccepted(s.memory.tasks), world, s.tick);
  }

  /** An abort is final: unless the store's error is raised, the row it leaves is never resumed, for
      any goal or context; and it is raised exactly when there is a row to mark and that write fails. */
  lemma AbortIsFinal(s: RunState, world: World)
    requires s.hasStore
    ensures var (t, _, raised) := Abort(s, world);
            && (raised <==> (s.works(s.writes) || s.stored.Some?) && !s.works(s.writes + 1))
            && (!raised && t.stored.Some? ==> !Resumption.Resumable(t.stored.value))
            && (s.works(s.writes) && !raised ==> t.stored.Some?)
  {}

  // ---- what is visited and called

  lemma {:induction false} CallsMeaning(visited: seq<Visit>, c: Call)
    ensures c in Calls(visited) <==>
            exists v :: v in visited && v.step.spec.compensation.Some? && c == Call(v.task, v.step.id)
  {
    if visited != [] {
      var front, last := visited[..|visited| - 1], visited[|visited| - 1];
      CallsMeaning(front, c);
      assert forall v :: v in visited <==> v in front || v == last;
    }
  }

  /** Step `j` of task `i` in memory had its actuation accepted. */
  predicate AcceptedAt(tasks: seq<Task>, i: nat, j: nat) {
    i < |tasks| && j < |StepsOf(tasks[i])| && StepsOf(tasks[i])[j].accepted
  }

  lemma {:induction false} AcceptedMeaning(i: nat, steps: seq<Step>, v: Visit)
    ensures v in Accepted(i, steps) <==> v.task == i && v.step.accepted && v.step in steps
  {
    if steps != [] {
      var front, last := steps[..|steps| - 1], steps[|steps| - 1];
      AcceptedMeaning(i, front, v);
      assert forall s :: s in steps <==> s in front || s == last;
    }
  }

  lemma {:induction false} AllAcceptedMeaning(tasks: seq<Task>, v: Visit)
    ensures v in AllAccepted(tasks) <==> v.task < |tasks| && v.step.accepted && v.step in StepsOf(tasks[v.task])
  {
    if tasks != [] {
      var n := |tasks| - 1;
      AllAcceptedMeaning(tasks[..n], v);
      AcceptedMeaning(n, StepsOf(tasks[n]), v);
      if v.task < n {
        assert tasks[..n][v.task] == tasks[v.task];
      }
    }
  }

  /** An abort calls the compensation of exactly the accepted steps in memory that have one; it
      looks at no record of what has run. */
  lemma AbortCallsExactly(s: RunState, world: World, c: Call)
    ensures c in Abort(s, world).1.calls <==>
            exists j: nat :: AcceptedAt(s.memory.tasks, c.task, j)
                             && StepsOf(s.memory.tasks[c.task])[j].spec.compensation.Some?
                             && StepsOf(s.memory.tasks[c.task])[j].id == c.id
  {
    var tasks := s.memory.tasks;
    AbortReports(s, world);
    CallsMeaning(AllAccepted(tasks), c);
    if c in Abort(s, world).1.calls {
      var v :| v in AllAccepted(tasks) && v.step.spec.compensation.Some? && c == Call(v.task, v.step.id);
      AllAcceptedMeaning(tasks, v);
      var j :| 0 <= j < |StepsOf(tasks[c.task])| && StepsOf(tasks[c.task])[j] == v.step;
      assert AcceptedAt(tasks, c.task, j);
    }
    if j: nat :| AcceptedAt(tasks, c.task, j) && StepsOf(tasks[c.task])[j].spec.compensation.Some?
                 && StepsOf(tasks[c.task])[j].id == c.id {
      AllAcceptedMeaning(tasks, Visit(c.task, StepsOf(tasks[c.task])[j]));
    }
  }

  // ---- what becomes of the steps in memory

  /** How many of the steps from `low` up to, not including, `high` have a compensation called. */
  function CallsIn(steps: seq<Step>, low: nat, high: nat): nat
    requires high <= |steps|
    decreases high - low
  {
    if low >= high then 0
    else CallsIn(steps, low + 1, high) + (if steps[low].accepted && steps[low].spec.compensation.Some? then 1 else 0)
  }

  /** The calls for the tasks from `low` up to, not including, `high`. */
  function CallsInTasks(tasks: seq<Task>, low: nat, high: nat): nat
    requires high <= |tasks|
    decreases high - low
  {
    if low >= high then 0
    else CallsInTasks(tasks, low + 1, high) + CallsIn(StepsOf(tasks[low]), 0, |StepsOf(tasks[low])|)
  }

  /** A step as its visit leaves it, `o` being the answer to its call. */
  function RolledBackStep(s: Step, o: Obs): Step {
    if s.accepted && s.spec.compensation.Some? && !o.raises then s.(undo := s.undo.(executed := o.success)) else s
  }

  lemma {:induction false} CallsAdd(steps: seq<Step>, low: nat, high: nat)
    requires low <= high < |steps|
    ensures CallsIn(steps, low, high + 1)
         == CallsIn(steps, low, high) + (if steps[high].accepted && steps[high].spec.compensation.Some? then 1 else 0)
    decreases high - low
  {
    if low < high {
      CallsAdd(steps, low + 1, high);
    }
  }

  lemma {:induction false} SameCalls(a: seq<Step>, b: seq<Step>, low: nat, high: nat)
    requires high <= |a| == |b| && forall j :: low <= j < high ==> a[j] == b[j]
    ensures CallsIn(a, low, high) == CallsIn(b, low, high)
    decreases high - low
  {
    if low < high {
      SameCalls(a, b, low + 1, high);
    }
  }

  lemma VisitCalls(i: nat, s: Step, r: Report, world: World)
    ensures var (after, next) := VisitStep(i, s, r, world);
            && after == RolledBackStep(s, world(r.tick))
            && next.tick == r.tick + if s.accepted && s.spec.compensation.Some? then 1 else 0
  {}

  lemma {:induction false} StepsTick(i: nat, steps: seq<Step>, n: nat, r: Report, world: World)
    requires n <= |steps|
    ensures var (after, next) := VisitSteps(i, steps, n, r, world);
            |after| == |steps| && next.tick == r.tick + CallsIn(steps, 0, n)
    decreases n
  {
    if n > 0 {
      var (s, next) := VisitStep(i, steps[n - 1], r, world);
      var rest := steps[n - 1 := s];
      VisitCalls(i, steps[n - 1], r, world);
      StepsTick(i, rest, n - 1, next, world);
      SameCalls(steps, rest, 0, n - 1);
      CallsAdd(steps, 0, n - 1);
    }
  }

  /** What the visits to the first `n` steps leave of step `j`. */
  lemma {:induction false} StepAfter(i: nat, steps: seq<Step>, n: nat, r: Report, world: World, j: nat)
    requires n <= |steps| && j < |steps|
    ensures var after := VisitSteps(i, steps, n, r, world).0;
            && |after| == |steps|
            && after[j] == if j < n then RolledBackStep(steps[j], world(r.tick + CallsIn(steps, j + 1, n)))
                           else steps[j]
    decreases n
  {
    if n > 0 {
      var (s, next) := VisitStep(i, steps[n - 1], r, world);
      var rest := steps[n - 1 := s];
      VisitCalls(i, steps[n - 1], r, world);
      StepAfter(i, rest, n - 1, next, world, j);
      if j < n - 1 {
        SameCalls(steps, rest, j + 1, n - 1);
        CallsAdd(steps, j + 1, n - 1);
      }
    }
  }

  lemma {:induction false} SameCallsInTasks(a: seq<Task>, b: seq<Task>, low: nat, high: nat)
    requires high <= |a| == |b| && forall i :: low <= i < high ==> a[i] == b[i]
    ensures CallsInTasks(a, low, high) == CallsInTasks(b, low, high)
    decreases high - low
  {
    if low < high {
      SameCallsInTasks(a, b, low + 1, high);
    }
  }

  lemma {:induction false} CallsInTasksAdd(tasks: seq<Task>, low: nat, high: nat)
    requires low <= high < |tasks|
    ensures CallsInTasks(tasks, low, high + 1)
         == CallsInTasks(tasks, low, high) + CallsIn(StepsOf(tasks[high]), 0, |StepsOf(tasks[high])|)
    decreases high - low
  {
    if low < high {
      CallsInTasksAdd(tasks, low + 1, high);
    }
  }

  /** Step `j` of a task once it was visited, the first call for the task being answered at `start`. */
  predicate RolledBackAt(after: Task, t: Task, world: World, start: nat, j: nat) {
    && after == t.(work := after.work) && |StepsOf(after)| == |StepsOf(t)|
    && (j < |StepsOf(t)| ==>
          var steps := StepsOf(t);
          StepsOf(after)[j] == RolledBackStep(steps[j], world(start + CallsIn(steps, j + 1, |steps|))))
  }

  lemma TaskAfter(i: nat, t: Task, r: Report, world: World, j: nat)
    ensures var (after, next) := VisitTask(i, t, r, world);
            && RolledBackAt(after, t, world, r.tick, j)
            && next.tick == r.tick + CallsIn(StepsOf(t), 0, |StepsOf(t)|)
  {
    var steps := StepsOf(t);
    if t.work.Composite? {
      StepsTick(i, steps, |steps|, r, world);
      if j < |steps| {
        StepAfter(i, steps, |steps|, r, world, j);
      }
    }
  }

  lemma {:induction false} TasksBehind(tasks: seq<Task>, n: nat, r: Report, world: World, i: nat)
    requires n <= |tasks| && n <= i
    ensures var after := VisitTasks(tasks, n, r, world).0;
            |after| == |tasks| && (i < |tasks| ==> after[i] == tasks[i])
    decreases n
  {
    if n > 0 {
      var (t, next) := VisitTask(n - 1, tasks[n - 1], r, world);
      TasksBehind(tasks[n - 1 := t], n - 1, next, world, i);
    }
  }

  /** What the visits to the first `n` tasks leave of task `i`. */
  lemma {:induction false} TasksAfter(tasks: seq<Task>, n: nat, r: Report, world: World, i: nat, j: nat)
    requires i < n <= |tasks|
    ensures var after := VisitTasks(tasks, n, r, world).0;
            && |after| == |tasks|
            && RolledBackAt(after[i], tasks[i], world, r.tick + CallsInTasks(tasks, i + 1, n), j)
    decreases n
  {
    var (t, next) := VisitTask(n - 1, tasks[n - 1], r, world);
    var rest := tasks[n - 1 := t];
    TaskAfter(n - 1, tasks[n - 1], r, world, j);
    if i < n - 1 {
      TasksAfter(rest, n - 1, next, world, i, j);
      SameCallsInTasks(tasks, rest, i + 1, n - 1);
      CallsInTasksAdd(tasks, i + 1, n - 1);
    } else {
      TasksBehind(rest, n - 1, next, world, i);
    }
  }

  /** What an abort leaves in memory of step `j` of task `i`: it is changed exactly if it was accepted,
      has a compensation, and the call of that, behind those for all later tasks and steps, does not
      raise; then its record tells whether the call succeeded. */
  lemma AbortedMemory(s: RunState, world: World, i: nat, j: nat)
    requires i < |s.memory.tasks|
    ensures var t := Abort(s, world).0;
            && |t.memory.tasks| == |s.memory.tasks|
            && RolledBackAt(t.memory.tasks[i], s.memory.tasks[i], world,
                            s.tick + CallsInTasks(s.memory.tasks, i + 1, |s.memory.tasks|), j)
            && t.memory == s.memory.(goalState := GoalFailed, tasks := t.memory.tasks)
  {
    TasksAfter(s.memory.tasks, |s.memory.tasks|, Report([], [], [], s.tick), world, i, j);
  }
}
