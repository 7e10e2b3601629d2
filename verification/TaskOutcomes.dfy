/** When a composite task can succeed, and when a failed run is followed by another. */
module TaskOutcomes {
  import opened Domain
  import opened SequenceSpec
  import opened SequenceFacts
  import opened CompositeTask
  import opened CompositeTaskFacts
  import opened CompositeTaskSafety
  import opened Schedules
  import Recovery
  import StopOnFailure
  import Compiler

  // ---- the gate

  lemma SuccessIsClear(plan: Sequence, world: World, tick: nat)
    ensures var out := Execute(plan, NoEvaluator, world, tick);
            out.Returned? && out.result.status == Success ==> ClearFrom(plan.steps, 0)
  {
    ExecutionGate(plan, world, tick);
    ExecutionIsTruthful(plan, NoEvaluator, world, tick);
    var out := Execute(plan, NoEvaluator, world, tick);
    if out.Returned? && out.result.status == Success {
      forall j | 0 <= j < |plan.steps| ensures Clear(plan.steps[j].spec) {
        assert Done(out.result.steps[j]) && SamePlan(plan.steps[j], out.result.steps[j]);
      }
    }
  }

  lemma ReplanKeepsGate(plan: Sequence, failed: nat, j: nat)
    requires failed <= j < |plan.steps| && !Clear(plan.steps[j].spec)
    ensures var repaired := Compiler.Replan(plan, failed, Some(Recovery.InspectState));
            repaired.Some? && !ClearFrom(repaired.value.steps, 0)
  {
    var left := Compiler.Replan(plan, failed, Some(Recovery.InspectState)).value.steps;
    var rest := plan.steps[failed..];
    var head := |left| - |rest|;
    assert left[head + (j - failed)] == Compiler.Clone(rest[j - failed], head + (j - failed));
  }

  /** What is left after the done prefix of a run still holds the step that is not let in. */
  lemma GateMovesOn(s: TaskState, r: Progress, k: nat, world: World)
    requires !ClearFrom(s.plan.steps, 0) && DoneTo(r, s.plan.steps, k) && GateKept(r.steps)
    ensures React(s, r, world).Rerun? ==> !ClearFrom(React(s, r, world).state.plan.steps, 0)
  {
    ReactShape(s, r, world);
    if React(s, r, world).Rerun? {
      var j :| 0 <= j < |s.plan.steps| && !Clear(s.plan.steps[j].spec);
      assert SamePlan(s.plan.steps[j], r.steps[j]) && !Done(r.steps[j]);
      ReplanKeepsGate(Logged(s, r).plan, k, j);
    }
  }

  lemma {:induction false} GateHoldsInLoop(s: TaskState, world: World)
    requires s.replans <= MaxReplans && s.plan.stopOnFailure && !ClearFrom(s.plan.steps, 0)
    ensures Loop(s, world).end != TaskSucceeded
    decreases MaxReplans - s.replans
  {
    SuccessIsClear(s.plan, world, s.tick);
    ExecutionGate(s.plan, world, s.tick);
    var k := RunSplit(s.plan, world, s.tick);
    var out := Execute(s.plan, NoEvaluator, world, s.tick);
    if out.Returned? {
      ReactShape(s, out.result, world);
      LoopFollows(s, out.result, world);
      GateMovesOn(s, out.result, k, world);
      if React(s, out.result, world).Rerun? {
        ReplanKeepsPieces(Logged(s, out.result).plan, k);
        GateHoldsInLoop(React(s, out.result, world).state, world);
      }
    }
  }

  /** The runtime passes no evaluator, so a task can succeed exactly when every step of its plan
      needs no permission, or only that to read system information. */
  lemma SucceedsExactlyWhenClear(plan: Sequence)
    ensures (exists world: World, tick: nat :: RunTask(plan, world, tick).end == TaskSucceeded)
       <==> ClearFrom(plan.steps, 0)
  {
    if ClearFrom(plan.steps, 0) {
      var world: World := _ => Good;
      RunTaskIsLoop(plan, world, 0);
      GoodLoop(Begin(plan, 0), world);
      assert RunTask(plan, world, 0).end == TaskSucceeded;
    } else {
      forall world: World, tick: nat ensures RunTask(plan, world, tick).end != TaskSucceeded {
        if plan.stopOnFailure {
          RunTaskIsLoop(plan, world, tick);
          GateHoldsInLoop(Begin(plan, tick), world);
        } else {
          StopOnFailure.GatedTask(plan, world, tick);
        }
      }
    }
  }

  // ---- replanning

  /** The decision of the task loop, spelled out. */
  lemma ReactReruns(s: TaskState, r: Progress, world: World)
    ensures React(s, r, world).Rerun? <==>
            && r.status !in {Success, PermissionDenied, CancelledRun}
            && !world(r.tick).cancel && !IsTimeout(r.error)
            && s.replans < MaxReplans && r.failedIndex.Some? && r.failedIndex.value < |r.steps|
  {
    if r.failedIndex.Some? && r.failedIndex.value < |r.steps| {
      ReplanKeepsPieces(Logged(s, r).plan, r.failedIndex.value);
    }
  }

  /** A run is followed by another exactly when replans are left, it failed or partly failed, its
      error is not a timeout's, and the cancel event is not set when the task loop looks. Used by
      ToolCodeStopsReplanning. */
  lemma RerunExactly(s: TaskState, world: World)
    requires s.plan.stopOnFailure && Execute(s.plan, NoEvaluator, world, s.tick).Returned?
    ensures var r := Execute(s.plan, NoEvaluator, world, s.tick).result;
            React(s, r, world).Rerun? <==>
              s.replans < MaxReplans && r.status in {PartialFailure, Failed} && !IsTimeout(r.error)
                && !world(r.tick).cancel
  {
    ExecutionIsTruthful(s.plan, NoEvaluator, world, s.tick);
    TimeoutHasError(s.plan, world, s.tick);
    ReactReruns(s, Execute(s.plan, NoEvaluator, world, s.tick).result, world);
  }

  lemma TimeoutHasError(plan: Sequence, world: World, tick: nat)
    ensures var out := Execute(plan, NoEvaluator, world, tick);
            out.Returned? && out.result.status == Timeout ==> IsTimeout(out.result.error)
  {
    RanIsNoTimeout(Start(plan, tick), 0, plan, world);
  }

  lemma {:induction false} RanIsNoTimeout(p: Progress, idx: nat, plan: Sequence, world: World)
    requires idx <= |p.steps| && p.status == Success
    ensures var stage := StepLoop(p, idx, plan, NoEvaluator, world);
            stage.Ran? ==> stage.p.status != Timeout
    decreases |p.steps| - idx
  {
    if idx < |p.steps| {
      StepLoopUnfolds(p, idx, plan, NoEvaluator, world);
      TurnStatus(p, idx, plan, world);
      var m := Turn(p, idx, plan, NoEvaluator, world);
      if m.Proceed? {
        RanIsNoTimeout(m.p, idx + 1, plan, world);
      }
    }
  }

  lemma TurnStatus(p: Progress, idx: nat, plan: Sequence, world: World)
    requires idx < |p.steps| && p.status == Success
    ensures var m := Turn(p, idx, plan, NoEvaluator, world);
            if m.Proceed? then m.p.status == Success else m.stage.Ran? ==> m.stage.p.status != Timeout
  {
    forall q: Progress | |q.steps| == |p.steps| {
      CompensateFacts(q, idx, world);
    }
  }

  /** A tool's error code alone decides whether a failed step is planned again: in a world where
      only one attempt fails, the task succeeds exactly when the code is not "TIMEOUT". */
  lemma ToolCodeStopsReplanning(plan: Sequence, at: nat, code: string)
    requires plan.stopOnFailure && ClearFrom(plan.steps, 0) && at < |plan.steps|
    ensures var run := RunTask(plan, FailingAt(0, at, Some(ToolError(code))), 0);
            && (run.end == TaskSucceeded <==> code != "TIMEOUT")
            && (code == "TIMEOUT" ==> run.end == TaskFails(Some(NavigationTimeout)) && run.state.runs == 1)
  {
    var error := Some(ToolError(code));
    var world := FailingAt(0, at, error);
    FailsOnce(plan, 0, at, error);
    RunTaskIsLoop(plan, world, 0);
    var s, r := Begin(plan, 0), Execute(plan, NoEvaluator, world, 0).result;
    assert world(r.tick) == Good;
    RerunExactly(s, world);
    assert React(s, r, world).Rerun? <==> code != "TIMEOUT";
    LoopFollows(s, r, world);
    if code != "TIMEOUT" {
      assert ClearFrom(r.steps, 0);
      RetrySucceeds(s, r, at, world);
    } else {
      StopsOnTimeout(s, r, world);
    }
  }

  lemma StopsOnTimeout(s: TaskState, r: Progress, world: World)
    requires r.status in {PartialFailure, Failed, Timeout} && IsTimeout(r.error) && !world(r.tick).cancel
    ensures React(s, r, world) == Stop(TaskRun(TaskFails(Some(NavigationTimeout)), Logged(s, r).(tick := r.tick + 1)))
  {}
}
