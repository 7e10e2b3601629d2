/** Why replanning needs stop-on-failure: without it the remainder starts at the last failed
    step, so an earlier failed step is dropped and a later completed one runs twice. */
module StopOnFailure {
  import opened Domain
  import opened SequenceSpec
  import opened SequenceFacts
  import opened CompositeTask
  import opened CompositeTaskFacts
  import opened Schedules

  // ---- one bad attempt without stop-on-failure

  lemma BadTurn(p: Progress, idx: nat, plan: Sequence, world: World)
    requires idx < |p.steps| && world(p.tick) == Good && world(p.tick + 1) == Bad && Clear(p.steps[idx].spec)
    requires !plan.stopOnFailure && (idx > 0 ==> GoodFrom(world, p.tick + 2))
    ensures var move := Turn(p, idx, plan, NoEvaluator, world);
            && move.Proceed? && Onward(p, move.p) && (idx == 0 ==> move.p.tick == p.tick + 2)
               && p.tick + 2 <= move.p.tick
            && move.p.completed == p.completed && move.p.failedIndex == Some(idx)
               && move.p.error == Some(VerificationError)
            && move.p.steps[idx].status == StepFailed
            && (forall j :: 0 <= j < |p.steps| && j != idx ==> move.p.steps[j].status == p.steps[j].status)
  {
    BadAttempt(p, idx, plan, None, world);
    var end := Attempts(idx, p.steps[idx].(status := Executing), 0, AttemptLimit(plan.maxRetries), None, world,
      p.effects, p.tick + 1);
    var failed := Fail(Acted(p, end.effects, end.tick), idx, end.step, end.error);
    if idx > 0 {
      CalmCompensate(failed, idx, world);
    }
    CompensateFacts(failed, idx, world);
    var undone := Compensate(failed, idx, world).p.steps;
    assert forall j :: 0 <= j < |undone| ==> SameButUndo(failed.steps[j], undone[j]);
  }

  // ---- the failing family

  /** A run that failed last at `failed` and completed the steps from `from` on. */
  ghost predicate FailedOnce(plan: Sequence, out: Outcome, failed: nat, from: nat) {
    && out.Returned?
    && var r := out.result;
       && |r.steps| == |plan.steps| && failed < from <= |r.steps|
       && r.status in {PartialFailure, Failed} && r.failedIndex == Some(failed) && r.error == Some(VerificationError)
       && (forall j :: 0 <= j < |r.steps| ==> SamePlan(plan.steps[j], r.steps[j]) && (Done(r.steps[j]) <==> from <= j))
  }

  lemma FirstFails(plan: Sequence, world: World)
    requires !plan.stopOnFailure && |plan.steps| >= 2 && ClearFrom(plan.steps, 0)
    requires world(0) == Good && world(1) == Bad && GoodFrom(world, 2)
    ensures var out := Execute(plan, NoEvaluator, world, 0);
            FailedOnce(plan, out, 0, 1) && out.result.tick >= 2
  {
    var p := Start(plan, 0);
    BadTurn(p, 0, plan, world);
    StepLoopUnfolds(p, 0, plan, NoEvaluator, world);
    var q := Turn(p, 0, plan, NoEvaluator, world).p;
    GoodRun(q, 1, plan, world);
  }

  /** The good end of a run that failed before `from`, last at `failed`. */
  lemma EndsFailed(plan: Sequence, q: Progress, t: Progress, failed: nat, from: nat)
    requires |q.steps| == |plan.steps| && failed < from <= |q.steps|
    requires forall j :: 0 <= j < |q.steps| ==> SamePlan(plan.steps[j], q.steps[j])
    requires forall j :: 0 <= j < from ==> q.steps[j].status == StepFailed
    requires Onward(q, t) && q.status == Success && t.completed == |q.steps| - from
    requires t.failedIndex == Some(failed) && t.error == Some(VerificationError)
    requires forall j :: 0 <= j < from ==> t.steps[j] == q.steps[j]
    requires forall j :: from <= j < |q.steps| ==> Done(t.steps[j])
    ensures FailedOnce(plan, Finish(Ran(t)), failed, from)
  {}

  lemma TwoBadTurns(p: Progress, plan: Sequence, world: World) returns (q: Progress)
    requires !plan.stopOnFailure && |p.steps| >= 2 && ClearFrom(p.steps, 0)
    requires world(p.tick) == Good && world(p.tick + 1) == Bad && world(p.tick + 2) == Good && world(p.tick + 3) == Bad
    requires GoodFrom(world, p.tick + 4)
    ensures Onward(p, q) && p.tick + 4 <= q.tick && q.completed == p.completed
    ensures q.failedIndex == Some(1) && q.error == Some(VerificationError)
    ensures q.steps[0].status == StepFailed && q.steps[1].status == StepFailed
    ensures StepLoop(p, 0, plan, NoEvaluator, world) == StepLoop(q, 2, plan, NoEvaluator, world)
  {
    BadTurn(p, 0, plan, world);
    StepLoopUnfolds(p, 0, plan, NoEvaluator, world);
    var first := Turn(p, 0, plan, NoEvaluator, world).p;
    BadTurn(first, 1, plan, world);
    StepLoopUnfolds(first, 1, plan, NoEvaluator, world);
    q := Turn(first, 1, plan, NoEvaluator, world).p;
  }

  lemma TwoFailures(p: Progress, plan: Sequence, world: World)
    requires !plan.stopOnFailure && |p.steps| == |plan.steps| >= 2 && ClearFrom(p.steps, 0)
    requires p.status == Success && p.completed == 0
    requires forall j :: 0 <= j < |p.steps| ==> SamePlan(plan.steps[j], p.steps[j])
    requires world(p.tick) == Good && world(p.tick + 1) == Bad && world(p.tick + 2) == Good && world(p.tick + 3) == Bad
    requires GoodFrom(world, p.tick + 4)
    ensures var stage := StepLoop(p, 0, plan, NoEvaluator, world);
            stage.Ran? && FailedOnce(plan, Finish(stage), 1, 2) && stage.p.tick >= p.tick + 4
  {
    var q := TwoBadTurns(p, plan, world);
    assert ClearFrom(q.steps, 2);
    GoodRun(q, 2, plan, world);
    EndsFailed(plan, q, StepLoop(q, 2, plan, NoEvaluator, world).p, 1, 2);
  }

  lemma FirstTwoFail(plan: Sequence, world: World)
    requires !plan.stopOnFailure && |plan.steps| >= 2 && ClearFrom(plan.steps, 0)
    requires world(0) == Good && world(1) == Bad && world(2) == Good && world(3) == Bad && GoodFrom(world, 4)
    ensures var out := Execute(plan, NoEvaluator, world, 0);
            FailedOnce(plan, out, 1, 2) && out.result.tick >= 4
  {
    TwoFailures(Start(plan, 0), plan, world);
  }

  /** The log after both runs: what the first completed, then the replanned remainder. */
  lemma BothRuns(plan: Sequence, world: World, failed: nat, from: nat)
    requires FailedOnce(plan, Execute(plan, NoEvaluator, world, 0), failed, from)
    requires GoodFrom(world, Execute(plan, NoEvaluator, world, 0).result.tick) && ClearFrom(plan.steps, 0)
    ensures var run := RunTask(plan, world, 0);
            && run.end == TaskSucceeded
            && CompletedPieces(run.state.actions) == Pieces(plan.steps[from..]) + Pieces(plan.steps[failed..])
  {
    var r := Execute(plan, NoEvaluator, world, 0).result;
    assert ClearFrom(r.steps, 0) by {
      assert forall j :: 0 <= j < |r.steps| ==> r.steps[j].spec == plan.steps[j].spec;
    }
    RunTaskIsLoop(plan, world, 0);
    RetrySucceeds(Begin(plan, 0), r, failed, world);
    assert [] + Records(r.steps) == Records(r.steps);
    BothLogs(plan, r.steps, failed, from);
  }

  lemma BothLogs(plan: Sequence, steps: seq<Step>, failed: nat, from: nat)
    requires |steps| == |plan.steps| && failed <= |steps| && from <= |steps|
    requires forall j :: 0 <= j < |steps| ==> SamePlan(steps[j], plan.steps[j]) && (Done(steps[j]) <==> from <= j)
    ensures CompletedPieces(Records(steps)) + Pieces(steps[failed..])
            == Pieces(plan.steps[from..]) + Pieces(plan.steps[failed..])
  {
    TailCompleted(steps, from);
    PiecesSame(steps[from..], plan.steps[from..]);
    PiecesSame(steps[failed..], plan.steps[failed..]);
  }

  lemma {:induction false} TailCompleted(steps: seq<Step>, from: nat)
    requires from <= |steps| && forall j :: 0 <= j < |steps| ==> (Done(steps[j]) <==> from <= j)
    ensures CompletedPieces(Records(steps)) == Pieces(steps[from..])
  {
    if from == 0 {
      SplitAtFailure(steps, |steps|);
      assert steps[..|steps|] == steps == steps[0..];
    } else {
      TailCompleted(steps[1..], from - 1);
      assert Records(steps)[1..] == Records(steps[1..]);
      assert steps[1..][from - 1..] == steps[from..];
    }
  }

  /** The first step fails, the others complete, and the replan starts over from the first. */
  lemma RunsTwice(plan: Sequence) returns (world: World)
    requires !plan.stopOnFailure && |plan.steps| >= 2 && ClearFrom(plan.steps, 0)
    requires Pieces(plan.steps[1..]) != []
    ensures var run := RunTask(plan, world, 0);
            run.end == TaskSucceeded && CompletedPieces(run.state.actions) != Pieces(plan.steps)
  {
    world := t => if t == 1 then Bad else Good;
    FirstFails(plan, world);
    BothRuns(plan, world, 0, 1);
    assert plan.steps[0..] == plan.steps;
  }

  /** The first two steps fail, the others complete, and the replan starts from the second. */
  lemma DropsFirst(plan: Sequence) returns (world: World)
    requires !plan.stopOnFailure && |plan.steps| >= 2 && ClearFrom(plan.steps, 0)
    requires Pieces(plan.steps[1..]) == [] && Pieces(plan.steps) != []
    ensures var run := RunTask(plan, world, 0);
            run.end == TaskSucceeded && CompletedPieces(run.state.actions) != Pieces(plan.steps)
  {
    world := t => if t == 1 || t == 3 then Bad else Good;
    FirstTwoFail(plan, world);
    BothRuns(plan, world, 1, 2);
    PiecesConcat(plan.steps[1..2], plan.steps[2..]);
    assert plan.steps[1..2] + plan.steps[2..] == plan.steps[1..];
  }

  lemma {:induction false} NoPiecesNoRecords(steps: seq<Step>)
    requires Pieces(steps) == []
    ensures Completed(Records(steps)) == []
  {
    if steps != [] {
      NoPiecesNoRecords(steps[1..]);
      assert Records(steps)[1..] == Records(steps[1..]);
    }
  }

  // ---- the plans that are safe without it

  lemma ShortTurn(p: Progress, plan: Sequence, world: World)
    requires |p.steps| == 1 && p.status == Success && p.completed == 0
    ensures Finish(StepLoop(p, 0, plan, NoEvaluator, world))
         == Finish(StepLoop(p, 0, plan.(stopOnFailure := true), NoEvaluator, world))
  {
    var stopping := plan.(stopOnFailure := true);
    StepLoopUnfolds(p, 0, plan, NoEvaluator, world);
    StepLoopUnfolds(p, 0, stopping, NoEvaluator, world);
    var end := Attempts(0, p.steps[0].(status := Executing), 0, AttemptLimit(plan.maxRetries), None, world, p.effects,
      p.tick + 1);
    if end.GaveUp? {
      var failed := Fail(Acted(p, end.effects, end.tick), 0, end.step, end.error);
      assert SetFrom(failed.steps, 1, Skipped) == failed.steps;
    }
  }

  /** A plan of at most one step runs as it would with stop-on-failure. */
  lemma ShortPlan(plan: Sequence, world: World, tick: nat)
    requires |plan.steps| <= 1
    ensures Execute(plan, NoEvaluator, world, tick) == Execute(plan.(stopOnFailure := true), NoEvaluator, world, tick)
  {
    if |plan.steps| == 1 {
      ShortTurn(Start(plan, tick), plan, world);
    }
  }

  /** The action log of a reaction does not depend on the flag, nor does what is run next. */
  lemma ReactIgnoresFlag(plan: Sequence, r: Progress, world: World, tick: nat)
    ensures var a, b := React(Begin(plan, tick), r, world), React(Begin(plan.(stopOnFailure := true), tick), r, world);
            && (a.Rerun? <==> b.Rerun?) && (a.Rerun? ==> a == b)
            && (a.Stop? ==> a.run.end == b.run.end && a.run.state.actions == b.run.state.actions)
  {}

  lemma ShortTask(plan: Sequence, world: World, tick: nat)
    requires |plan.steps| <= 1
    ensures var run := RunTask(plan, world, tick);
            run.end == TaskSucceeded ==> CompletedPieces(run.state.actions) == Pieces(plan.steps)
  {
    var stopping := plan.(stopOnFailure := true);
    ShortPlan(plan, world, tick);
    ReplanningIsLossless(stopping, world, tick);
    RunTaskIsLoop(plan, world, tick);
    RunTaskIsLoop(stopping, world, tick);
    var out := Execute(plan, NoEvaluator, world, tick);
    if out.Returned? {
      ReactIgnoresFlag(plan, out.result, world, tick);
      LoopFollows(Begin(plan, tick), out.result, world);
      LoopFollows(Begin(stopping, tick), out.result, world);
    }
  }

  lemma InjectedResult(plan: Sequence, world: World, tick: nat)
    requires Pieces(plan.steps) == []
    ensures var out := Execute(plan, NoEvaluator, world, tick);
            out.Returned? ==>
              && CompletedPieces(Records(out.result.steps)) == []
              && (out.result.failedIndex.Some? ==> out.result.failedIndex.value < |out.result.steps|)
              && forall f :: 0 <= f <= |out.result.steps| ==> Pieces(out.result.steps[f..]) == []
  {
    ExecutionIsTruthful(plan, NoEvaluator, world, tick);
    var out := Execute(plan, NoEvaluator, world, tick);
    if out.Returned? {
      InjectedSteps(out.result.steps, plan.steps);
    }
  }

  lemma InjectedSteps(steps: seq<Step>, plan: seq<Step>)
    requires |steps| == |plan| && Pieces(plan) == [] && forall j :: 0 <= j < |steps| ==> SamePlan(steps[j], plan[j])
    ensures CompletedPieces(Records(steps)) == []
    ensures forall f :: 0 <= f <= |steps| ==> Pieces(steps[f..]) == []
  {
    PiecesSame(steps, plan);
    NoPiecesNoRecords(steps);
    forall f | 0 <= f <= |steps| ensures Pieces(steps[f..]) == [] {
      PiecesConcat(steps[..f], steps[f..]);
      assert steps[..f] + steps[f..] == steps;
    }
  }

  lemma {:induction false} AllInjected(s: TaskState, world: World)
    requires s.replans <= MaxReplans && Pieces(s.plan.steps) == [] && CompletedPieces(s.actions) == []
    ensures CompletedPieces(Loop(s, world).state.actions) == []
    decreases MaxReplans - s.replans
  {
    InjectedResult(s.plan, world, s.tick);
    var out := Execute(s.plan, NoEvaluator, world, s.tick);
    if out.Returned? {
      CompletedPiecesConcat(s.actions, Records(out.result.steps));
      ReactShape(s, out.result, world);
      var reaction := React(s, out.result, world);
      if reaction.Rerun? {
        ReplanKeepsPieces(Logged(s, out.result).plan, out.result.failedIndex.value);
        AllInjected(reaction.state, world);
      }
    }
  }

  /** The loop cannot get past a step that needs permission. */
  lemma {:induction false} GateHolds(p: Progress, idx: nat, plan: Sequence, world: World)
    requires idx <= |p.steps| && !plan.stopOnFailure && !ClearFrom(p.steps, idx)
    ensures var stage := StepLoop(p, idx, plan, NoEvaluator, world);
            stage.Ran? ==> stage.p.status in {CancelledRun, PermissionDenied}
    decreases |p.steps| - idx
  {
    TurnLength(p, idx, plan, NoEvaluator, world);
    var move := Turn(p, idx, plan, NoEvaluator, world);
    TurnKeepsSpecs(p, idx, plan, world);
    if move.Proceed? {
      GateHolds(move.p, idx + 1, plan, world);
    }
  }

  lemma TurnKeepsSpecs(p: Progress, idx: nat, plan: Sequence, world: World)
    requires idx < |p.steps| && !plan.stopOnFailure
    ensures var move := Turn(p, idx, plan, NoEvaluator, world);
            match move
            case Proceed(q) =>
              && |q.steps| == |p.steps| && Clear(p.steps[idx].spec)
              && forall j :: 0 <= j < |p.steps| ==> q.steps[j].spec == p.steps[j].spec
            case Halt(stage) => stage.Ran? ==> stage.p.status in {CancelledRun, PermissionDenied}
  {
    var o := world(p.tick);
    var step := p.steps[idx];
    if !o.cancel && !(Gated(step.spec) && !Allowed(step.spec, NoEvaluator, o)) {
      var begun := step.(status := Executing);
      AttemptsFacts(idx, begun, 0, AttemptLimit(plan.maxRetries), None, world, p.effects, p.tick + 1);
      var end := Attempts(idx, begun, 0, AttemptLimit(plan.maxRetries), None, world, p.effects, p.tick + 1);
      if end.GaveUp? {
        var recorded := Fail(Acted(p, end.effects, end.tick), idx, end.step, end.error);
        CompensateFacts(recorded, idx, world);
        var undone := Compensate(recorded, idx, world).p.steps;
        assert forall j :: 0 <= j < |undone| ==> SameButUndo(recorded.steps[j], undone[j]);
      }
    }
  }

  lemma StoppedShort(s: TaskState, r: Progress, world: World)
    requires r.status in {CancelledRun, PermissionDenied} || (r.status == Timeout && r.error == Some(TimeoutError))
    ensures React(s, r, world).Stop? && React(s, r, world).run.end != TaskSucceeded
  {}

  lemma GatedTask(plan: Sequence, world: World, tick: nat)
    requires !plan.stopOnFailure && !ClearFrom(plan.steps, 0)
    ensures RunTask(plan, world, tick).end != TaskSucceeded
  {
    var p := Start(plan, tick);
    assert !ClearFrom(p.steps, 0) by {
      var j :| 0 <= j < |plan.steps| && !Clear(plan.steps[j].spec);
      assert p.steps[j].spec == plan.steps[j].spec;
    }
    GateHolds(p, 0, plan, world);
    var out := Execute(plan, NoEvaluator, world, tick);
    RunTaskIsLoop(plan, world, tick);
    if out.Returned? {
      StoppedShort(Begin(plan, tick), out.result, world);
      LoopFollows(Begin(plan, tick), out.result, world);
    }
  }

  /** Every successful task completes exactly the steps of its plan, in order and once each, if
      and only if the plan stops on failure, is too short to go wrong, has no step of its own,
      or holds a step that is never let through (and so never succeeds). */
  lemma LosslessExactly(plan: Sequence)
    ensures (forall world: World, tick: nat ::
               RunTask(plan, world, tick).end == TaskSucceeded ==>
                 CompletedPieces(RunTask(plan, world, tick).state.actions) == Pieces(plan.steps))
            <==> plan.stopOnFailure || |plan.steps| <= 1 || Pieces(plan.steps) == [] || !ClearFrom(plan.steps, 0)
  {
    if plan.stopOnFailure || |plan.steps| <= 1 || Pieces(plan.steps) == [] || !ClearFrom(plan.steps, 0) {
      forall world: World, tick: nat | RunTask(plan, world, tick).end == TaskSucceeded
        ensures CompletedPieces(RunTask(plan, world, tick).state.actions) == Pieces(plan.steps)
      {
        if plan.stopOnFailure {
          ReplanningIsLossless(plan, world, tick);
        } else if |plan.steps| <= 1 {
          ShortTask(plan, world, tick);
        } else if Pieces(plan.steps) == [] {
          RunTaskIsLoop(plan, world, tick);
          AllInjected(Begin(plan, tick), world);
        } else {
          GatedTask(plan, world, tick);
        }
      }
    } else if Pieces(plan.steps[1..]) != [] {
      var world := RunsTwice(plan);
      assert RunTask(plan, world, 0).end == TaskSucceeded;
    } else {
      var world := DropsFirst(plan);
      assert RunTask(plan, world, 0).end == TaskSucceeded;
    }
  }
}
