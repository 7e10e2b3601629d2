/** Whether the work a resumption skips still stands: a failing run undoes the steps it had
    verified, and the checkpoint goes on calling them verified. */
module CutStands {
  import opened Domain
  import opened SequenceSpec
  import opened CompositeTask
  import opened CompositeTaskSafety
  import opened Goals
  import opened GoalFacts
  import opened Resumption
  import opened ResumptionFacts
  import opened Schedules
  import opened NetEffect
  import opened UndoOutcome
  import opened LastRun

  /** None of the first `cut` steps was undone, on record or not. */
  predicate Standing(effects: seq<Effect>, steps: seq<Step>, cut: nat)
    requires cut <= |steps|
  {
    forall j :: 0 <= j < cut ==> !Undone(effects, Root(steps[j].id))
  }

  // ---- one run

  function Lower(a: nat, b: nat): nat { if a < b then a else b }

  /** When a run leaves its first `cut` steps standing, by the answers alone: it comes to no failure,
      or may not compensate; or none of them that lies before the failed step has a compensation to
      run; or a deadline strikes in the calls for the steps behind them. */
  predicate LeavesStanding(plan: Sequence, world: World, tick: nat, cut: nat)
  {
    match FirstFailure(plan, world, 0, tick)
    case None => true
    case Some(f) =>
      var top := Lower(cut, f.at);
      || !plan.allowCompensation
      || (forall j :: 0 <= j < top ==> !Undoable(plan.steps[j]))
      || !Unstruck(world, f.since, f.since + CallsBetween(plan.steps, top, f.at))
  }

  /** Of the steps below `top` the last one that has a compensation to run is called first. */
  lemma {:induction false} LastBelow(steps: seq<Step>, world: World, f: Failure, top: nat, some: nat) returns (j: nat)
    requires some < top <= f.at <= |steps| && Undoable(steps[some])
    requires Unstruck(world, f.since, f.since + CallsBetween(steps, top, f.at))
    ensures j < top && CallStarts(steps, world, f, j)
    decreases top
  {
    if Undoable(steps[top - 1]) {
      j := top - 1;
    } else {
      j := LastBelow(steps, world, f, top - 1, some);
    }
  }

  lemma StartedBelow(steps: seq<Step>, world: World, f: Failure, top: nat, j: nat)
    requires j < top <= f.at <= |steps| && CallStarts(steps, world, f, j)
    ensures Unstruck(world, f.since, f.since + CallsBetween(steps, top, f.at))
  {
    StillFar(steps, j + 1, top, f.at);
  }

  lemma StandsExactly(plan: Sequence, world: World, tick: nat, cut: nat)
    requires cut <= |plan.steps|
    ensures (forall j :: 0 <= j < cut ==> !RunStarts(plan, world, tick, j)) <==> LeavesStanding(plan, world, tick, cut)
  {
    var failure := FirstFailure(plan, world, 0, tick);
    if failure.Some? && plan.allowCompensation {
      var f, steps := failure.value, plan.steps;
      var top := Lower(cut, f.at);
      if !LeavesStanding(plan, world, tick, cut) {
        var some :| 0 <= some < top && Undoable(steps[some]);
        var j := LastBelow(steps, world, f, top, some);
        assert RunStarts(plan, world, tick, j);
      } else {
        forall j | 0 <= j < cut ensures !RunStarts(plan, world, tick, j) {
          if CallStarts(steps, world, f, j) {
            StartedBelow(steps, world, f, top, j);
          }
        }
      }
    }
  }

  // ---- the steps that resuming skips

  lemma MemoryStands(plan: Sequence, world: World, tick: nat, cut: nat)
    requires plan.stopOnFailure && WellIdentified(plan.steps) && cut <= |RunTask(plan, world, tick).state.plan.steps|
    ensures var run, from := RunTask(plan, world, tick), LastStartOf(plan, world, tick);
            cut <= |from.plan.steps|
            && (Standing(run.state.effects, run.state.plan.steps, cut) <==>
               LeavesStanding(from.plan, world, from.tick, cut))
  {
    var run, from := RunTask(plan, world, tick), LastStartOf(plan, world, tick);
    LastRunOf(plan, world, tick);
    forall j | 0 <= j < cut
      ensures Undone(run.state.effects, Root(run.state.plan.steps[j].id)) <==> RunStarts(from.plan, world, from.tick, j)
    {
      MemoryUndoneExactly(plan, world, tick, j);
    }
    StandsExactly(from.plan, world, from.tick, cut);
  }

  /** Whether the steps that resuming cuts off an unfinished task still stand, exactly: none of
      their compensations was carried out, recorded or cut short by a deadline, if and only if the
      answers to the task's last run leave them standing. */
  lemma CutStandsExactly(plan: Sequence, world: World, tick: nat, t: Task, index: nat) returns (cut: nat)
    requires PlanOk(plan) && Unfinished(plan.steps) && WellIdentified(plan.steps)
    requires var run := RunTask(plan, world, tick);
      run.end != TaskSucceeded && t.work == Composite(run.state.plan) && t.state != TaskCompleted
    ensures var (after, boundary) := Cut(t, CheckpointTask(t, index));
            SafeCut(t, after, boundary, cut)
    ensures var run, from := RunTask(plan, world, tick), LastStartOf(plan, world, tick);
            cut <= |StepsOf(t)|
            && (Standing(run.state.effects, StepsOf(t), cut) <==> LeavesStanding(from.plan, world, from.tick, cut))
  {
    TaskPlan(plan, world, tick);
    cut := CutIsSafe(t, index);
    MemoryStands(plan, world, tick, cut);
  }

  // ---- the failing family is reachable

  /** Resuming skips a step that the memory keeps as verified. */
  lemma SkipsKept(run: TaskRun, plan: Sequence, j: nat, onRecord: bool, t: Task, index: nat) returns (cut: nat)
    requires j < |plan.steps| && KeepsUndone(run, plan, j, onRecord)
    requires PlanOk(run.state.plan) && Unfinished(run.state.plan.steps)
    requires t.work == Composite(run.state.plan) && t.state != TaskCompleted
    ensures var (after, boundary) := Cut(t, CheckpointTask(t, index));
            SafeCut(t, after, boundary, cut) && j < cut <= |run.state.plan.steps|
  {
    cut := CutIsSafe(t, index);
    assert CountsVerified(StepsOf(t)[j]);
  }

  /** For every plan that may compensate, needs no permission and can undo a step before its last:
      in some world the task fails with that step verified and undone, and resuming skips it; in
      another the same happens and the record does not even tell. */
  lemma ResumeSkipsUndoneStep(plan: Sequence, j: nat, onRecord: bool, t: Task, index: nat)
        returns (world: World, cut: nat)
    requires PlanOk(plan) && Unfinished(plan.steps) && plan.allowCompensation && ClearFrom(plan.steps, 0)
    requires j < |plan.steps| - 1 && Undoable(plan.steps[j]) && t.state != TaskCompleted
    ensures var run := RunTask(plan, world, 0);
            var left := t.(work := Composite(run.state.plan));
            var (after, boundary) := Cut(left, CheckpointTask(left, index));
            && KeepsUndone(run, plan, j, onRecord)
            && SafeCut(left, after, boundary, cut) && j < cut <= |run.state.plan.steps|
  {
    if onRecord {
      world := FailingAt(0, j + 1, Some(ToolError("TIMEOUT")));
      TaskKeepsUndoneStep(plan, 0, j);
    } else {
      world := CutShortAt(0, j + 1);
      TaskLosesRecord(plan, 0, j);
    }
    TaskPlan(plan, world, 0);
    var run := RunTask(plan, world, 0);
    cut := SkipsKept(run, plan, j, onRecord, t.(work := Composite(run.state.plan)), index);
  }
}
