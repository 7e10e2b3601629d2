/** Worlds in which everything works, or all but one attempt, and what tasks come to in them. */
module Schedules {
  import opened Domain
  import opened Recovery
  import opened SequenceSpec
  import opened SequenceFacts
  import opened CompositeTask
  import opened CompositeTaskFacts
  import Compiler

  const Good := Obs(false, true, NoStrike, NoStrike, NoStrike, true, true, Some(Verdict(TRUE, None)), None,
                    false, false, PlainSucceeds, true)

  const Bad := Good.(success := false, verdict := Some(Verdict(FALSE, Some(ExecutionFailed))))

  ghost predicate GoodFrom(world: World, tick: nat) { forall t: nat :: tick <= t ==> world(t) == Good }

  predicate ClearFrom(steps: seq<Step>, idx: nat) { forall j :: idx <= j < |steps| ==> Clear(steps[j].spec) }

  /** What a stretch of the loop leaves alone. */
  ghost predicate Onward(p: Progress, q: Progress) {
    && |q.steps| == |p.steps| && q.status == p.status
    && p.tick <= q.tick
    && (forall j :: 0 <= j < |p.steps| ==> SamePlan(p.steps[j], q.steps[j]))
  }

  // ---- good stretches

  lemma GoodTurn(p: Progress, idx: nat, plan: Sequence, world: World)
    requires idx < |p.steps| && world(p.tick) == Good && world(p.tick + 1) == Good && Clear(p.steps[idx].spec)
    ensures var move := Turn(p, idx, plan, NoEvaluator, world);
            && move.Proceed? && Onward(p, move.p) && move.p.tick == p.tick + 2
            && move.p.completed == p.completed + 1 && move.p.failedIndex == p.failedIndex && move.p.error == p.error
            && move.p.undone == p.undone
            && move.p.steps == p.steps[idx := move.p.steps[idx]] && IsVerified(move.p.steps[idx])
               && move.p.steps[idx].accepted
            && move.p.steps[idx].undo == p.steps[idx].undo
  {
    var begun := p.steps[idx].(status := Executing);
    var acted := p.effects + [Forward(idx, begun.id, p.tick + 1)];
    assert Attempts(idx, begun, 0, AttemptLimit(plan.maxRetries), None, world, p.effects, p.tick + 1)
        == Achieved(begun.(accepted := true, verdict := Good.verdict, status := VerifiedSuccess), acted,
                    p.tick + 2) by {
      AttemptsUnfold(idx, begun, 0, AttemptLimit(plan.maxRetries), None, world, p.effects, p.tick + 1);
    }
  }

  lemma {:induction false} GoodRun(p: Progress, idx: nat, plan: Sequence, world: World)
    requires idx <= |p.steps| && GoodFrom(world, p.tick) && ClearFrom(p.steps, idx)
    ensures var stage := StepLoop(p, idx, plan, NoEvaluator, world);
            && stage.Ran? && Onward(p, stage.p)
            && stage.p.completed == p.completed + (|p.steps| - idx)
            && stage.p.failedIndex == p.failedIndex && stage.p.error == p.error && stage.p.undone == p.undone
            && (forall j :: 0 <= j < idx ==> stage.p.steps[j] == p.steps[j])
            && (forall j :: idx <= j < |p.steps| ==> Done(stage.p.steps[j]))
    decreases |p.steps| - idx
  {
    if idx < |p.steps| {
      GoodTurn(p, idx, plan, world);
      StepLoopUnfolds(p, idx, plan, NoEvaluator, world);
      var move := Turn(p, idx, plan, NoEvaluator, world);
      GoodRun(move.p, idx + 1, plan, world);
    }
  }

  lemma GoodExecute(plan: Sequence, world: World, tick: nat)
    requires GoodFrom(world, tick) && ClearFrom(plan.steps, 0)
    ensures var out := Execute(plan, NoEvaluator, world, tick);
            && out.Returned? && out.result.status == Success && out.result.undone == []
            && |out.result.steps| == |plan.steps|
            && forall j :: 0 <= j < |plan.steps| ==>
               Done(out.result.steps[j]) && SamePlan(plan.steps[j], out.result.steps[j])
  {
    GoodRun(Start(plan, tick), 0, plan, world);
  }

  /** No deadline strikes from `tick` on. */
  ghost predicate CalmFrom(world: World, tick: nat) { forall t: nat :: tick <= t ==> world(t).strike == NoStrike }

  lemma {:induction false} CalmCompensate(p: Progress, count: nat, world: World)
    requires count <= |p.steps| && CalmFrom(world, p.tick)
    ensures var stage := Compensate(p, count, world);
            stage.Ran? && p.tick <= stage.p.tick && (count == 0 ==> stage.p == p)
    decreases count
  {
    if count > 0 {
      CompensateUnfolds(p, count, world);
      if Undoable(p.steps[count - 1]) {
        CalmCompensate(Recorded(p, count - 1, world(p.tick)), count - 1, world);
      } else {
        CalmCompensate(p, count - 1, world);
      }
    }
  }

  lemma GoodLoop(s: TaskState, world: World)
    requires s.replans <= MaxReplans && GoodFrom(world, s.tick) && ClearFrom(s.plan.steps, 0)
    ensures var run := Loop(s, world);
            && run.end == TaskSucceeded && run.state.undone == s.undone
            && CompletedPieces(run.state.actions) == CompletedPieces(s.actions) + Pieces(s.plan.steps)
  {
    GoodExecute(s.plan, world, s.tick);
    var r := Execute(s.plan, NoEvaluator, world, s.tick).result;
    ReactShape(s, r, world);
    LoopFollows(s, r, world);
    SplitAtFailure(r.steps, |r.steps|);
    assert r.steps[..|r.steps|] == r.steps;
    PiecesSame(r.steps, s.plan.steps);
    CompletedPiecesConcat(s.actions, Records(r.steps));
  }

  lemma ReplanClear(plan: Sequence, failed: nat)
    requires failed < |plan.steps| && ClearFrom(plan.steps, 0)
    ensures var repaired := Compiler.Replan(plan, failed, Some(InspectState));
            repaired.Some? && ClearFrom(repaired.value.steps, 0)
  {
    var steps := Compiler.Replan(plan, failed, Some(InspectState)).value.steps;
    var rest := plan.steps[failed..];
    var head := |steps| - |rest|;
    forall j | 0 <= j < |steps| ensures Clear(steps[j].spec) {
      if j >= head {
        assert steps[j] == Compiler.Clone(rest[j - head], j) && rest[j - head] == plan.steps[failed + j - head];
      }
    }
  }

  lemma RetryReacts(s: TaskState, r: Progress, failed: nat, world: World)
    requires s.replans == 0 && failed < |r.steps|
    requires r.status in {PartialFailure, Failed} && r.failedIndex == Some(failed)
    requires !IsTimeout(r.error) && !world(r.tick).cancel
    ensures React(s, r, world).Rerun?
  {
    ReplanKeepsPieces(Logged(s, r).plan, failed);
  }

  /** After a run whose last failure was at `failed`, a good environment lets the replanned
      remainder succeed; the log then holds what both runs completed. */
  lemma RetrySucceeds(s: TaskState, r: Progress, failed: nat, world: World)
    requires s.replans == 0 && Execute(s.plan, NoEvaluator, world, s.tick) == Returned(r)
    requires r.status in {PartialFailure, Failed} && r.failedIndex == Some(failed) && failed < |r.steps|
    requires !IsTimeout(r.error)
    requires GoodFrom(world, r.tick) && ClearFrom(r.steps, 0)
    ensures var run := Loop(s, world);
            && run.end == TaskSucceeded && run.state.undone == Logged(s, r).undone
            && CompletedPieces(run.state.actions)
               == CompletedPieces(s.actions + Records(r.steps)) + Pieces(r.steps[failed..])
  {
    assert world(r.tick) == Good;
    RetryReacts(s, r, failed, world);
    ReactShape(s, r, world);
    LoopFollows(s, r, world);
    var next := React(s, r, world).state;
    ReplanKeepsPieces(Logged(s, r).plan, failed);
    ReplanClear(Logged(s, r).plan, failed);
    GoodLoop(next, world);
  }

  // ---- one bad attempt

  lemma BadAttempt(p: Progress, idx: nat, plan: Sequence, code: Option<ErrorCode>, world: World)
    requires idx < |p.steps| && world(p.tick + 1) == Bad.(error := code)
    ensures var begun := p.steps[idx].(status := Executing);
            var end := Attempts(idx, begun, 0, AttemptLimit(plan.maxRetries), None, world, p.effects, p.tick + 1);
            && end.GaveUp? && end.tick == p.tick + 2 && end.error == code && SamePlan(end.step, begun)
               && end.step.accepted
  {
    AttemptGivesUp(Bad.verdict, true);
    AttemptsUnfold(idx, p.steps[idx].(status := Executing), 0, AttemptLimit(plan.maxRetries), None, world, p.effects,
      p.tick + 1);
  }

  /** For a run that starts at `start`: everything works but the first attempt at step `at`, which
      fails with the given error. */
  function FailingAt(start: nat, at: nat, code: Option<ErrorCode>): World {
    t => if t == start + 2 * at + 1 then Bad.(error := code) else Good
  }

  /** The loop head at `at` after nothing but good turns. */
  ghost predicate ReachedWell(p: Progress, q: Progress, idx: nat, at: nat)
    requires idx <= at <= |p.steps|
  {
    && Onward(p, q) && q.tick == p.tick + 2 * (at - idx) && q.completed == p.completed + (at - idx)
    && q.failedIndex == p.failedIndex && q.undone == p.undone
    && (forall j :: idx <= j < at ==> q.steps[j].accepted && IsVerified(q.steps[j]))
    && (forall j :: 0 <= j < |p.steps| ==> q.steps[j].undo == p.steps[j].undo)
  }

  lemma {:induction false} GoodPrefix(p: Progress, idx: nat, at: nat, plan: Sequence, world: World)
        returns (q: Progress)
    requires idx <= at <= |p.steps| && forall j :: idx <= j < at ==> Clear(p.steps[j].spec)
    requires forall t: nat :: p.tick <= t < p.tick + 2 * (at - idx) ==> world(t) == Good
    ensures ReachedWell(p, q, idx, at)
    ensures StepLoop(p, idx, plan, NoEvaluator, world) == StepLoop(q, at, plan, NoEvaluator, world)
    ensures forall j :: 0 <= j < idx ==> q.steps[j] == p.steps[j]
    decreases at - idx
  {
    if idx == at {
      q := p;
    } else {
      GoodTurn(p, idx, plan, world);
      StepLoopUnfolds(p, idx, plan, NoEvaluator, world);
      q := GoodPrefix(Turn(p, idx, plan, NoEvaluator, world).p, idx + 1, at, plan, world);
    }
  }

  lemma BadTurnHalts(p: Progress, idx: nat, plan: Sequence, code: Option<ErrorCode>, world: World)
    requires idx < |p.steps| && plan.stopOnFailure && Clear(p.steps[idx].spec)
    requires !world(p.tick).cancel && world(p.tick + 1) == Bad.(error := code) && CalmFrom(world, p.tick + 2)
    ensures var m := Turn(p, idx, plan, NoEvaluator, world);
            && m.Halt? && m.stage.Ran? && |m.stage.p.steps| == |p.steps|
            && m.stage.p.status == Partial(p.completed) && m.stage.p.failedIndex == Some(idx)
            && m.stage.p.error == Some(if code.Some? then code.value else VerificationError)
            && p.tick + 2 <= m.stage.p.tick
            && (forall j :: 0 <= j < |p.steps| && j != idx ==> m.stage.p.steps[j].accepted == p.steps[j].accepted)
            && (forall j :: 0 <= j < idx ==> m.stage.p.steps[j].status == p.steps[j].status)
            && (forall j :: 0 <= j < |p.steps| ==> SamePlan(p.steps[j], m.stage.p.steps[j]))
  {
    BadAttempt(p, idx, plan, code, world);
    var end := Attempts(idx, p.steps[idx].(status := Executing), 0, AttemptLimit(plan.maxRetries), None, world,
      p.effects, p.tick + 1);
    var failed := Fail(Acted(p, end.effects, end.tick), idx, end.step, end.error);
    CalmCompensate(failed, idx, world);
    CompensateFacts(failed, idx, world);
    var undone := Compensate(failed, idx, world).p.steps;
    assert forall j :: 0 <= j < |undone| ==> SameButUndo(failed.steps[j], undone[j]);
  }

  /** The result of the first run in such a world. */
  ghost predicate FailedAt(out: Outcome, plan: Sequence, at: nat, code: Option<ErrorCode>, world: World) {
    && out.Returned?
    && var r := out.result;
       && |r.steps| == |plan.steps| && at < |r.steps|
       && r.status == Partial(at) && r.failedIndex == Some(at)
       && r.error == Some(if code.Some? then code.value else VerificationError)
       && GoodFrom(world, r.tick)
       && (forall j :: 0 <= j < |r.steps| ==> SamePlan(plan.steps[j], r.steps[j]))
       && (forall j :: 0 <= j < at ==> r.steps[j].accepted && IsVerified(r.steps[j]))
  }

  /** The result of a run that halts at its failed step. */
  lemma HaltedRun(q: Progress, m: Move, plan: Sequence, at: nat, code: Option<ErrorCode>, world: World)
    requires |q.steps| == |plan.steps| && at < |plan.steps| && q.completed == at
    requires forall j :: 0 <= j < |q.steps| ==> SamePlan(plan.steps[j], q.steps[j])
    requires forall j :: 0 <= j < at ==> q.steps[j].accepted && IsVerified(q.steps[j])
    requires m.Halt? && m.stage.Ran? && |m.stage.p.steps| == |q.steps|
    requires m.stage.p.status == Partial(at) && m.stage.p.failedIndex == Some(at)
    requires m.stage.p.error == Some(if code.Some? then code.value else VerificationError)
    requires GoodFrom(world, m.stage.p.tick)
    requires forall j :: 0 <= j < |q.steps| ==> SamePlan(q.steps[j], m.stage.p.steps[j])
    requires forall j :: 0 <= j < at ==> m.stage.p.steps[j].accepted == q.steps[j].accepted
    requires forall j :: 0 <= j < at ==> m.stage.p.steps[j].status == q.steps[j].status
    ensures FailedAt(Finish(m.stage), plan, at, code, world)
  {}

  lemma FailsOnce(plan: Sequence, start: nat, at: nat, code: Option<ErrorCode>)
    requires plan.stopOnFailure && ClearFrom(plan.steps, 0) && at < |plan.steps|
    ensures var world := FailingAt(start, at, code);
            FailedAt(Execute(plan, NoEvaluator, world, start), plan, at, code, world)
  {
    var world := FailingAt(start, at, code);
    var q := GoodPrefix(Start(plan, start), 0, at, plan, world);
    BadTurnHalts(q, at, plan, code, world);
    StepLoopUnfolds(q, at, plan, NoEvaluator, world);
    HaltedRun(q, Turn(q, at, plan, NoEvaluator, world), plan, at, code, world);
  }
}
