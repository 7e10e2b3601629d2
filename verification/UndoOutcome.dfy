/** Exactly which compensations a run starts, and which of them it records, told from the
    environment's answers. */
module UndoOutcome {
  import opened Domain
  import opened SequenceSpec
  import opened SequenceTrace
  import opened UndoEffects
  import opened Fates

  // ---- where a run fails

  /** A step that failed, and the tick from which the compensations before it are called. */
  datatype Failure = Failure(at: nat, since: nat)

  /** The failure of a run that is about to begin the turn of step `idx`, if it comes to one: step
      after step is let in and wins until one is lost. */
  function FirstFailure(plan: Sequence, world: World, idx: nat, tick: nat): (f: Option<Failure>)
    requires idx <= |plan.steps|
    ensures f.Some? ==> idx <= f.value.at < |plan.steps|
    decreases |plan.steps| - idx
  {
    if idx == |plan.steps| || world(tick).cancel || !Clear(plan.steps[idx].spec) then None
    else
      match TurnFate(plan, world, idx, tick)
      case WonBy(at) => FirstFailure(plan, world, idx + 1, at + 1)
      case LostAt(at) => Some(Failure(idx, at + 1))
      case StruckIn(_, _) => None
  }

  // ---- the calls that follow

  /** How many of the steps from `low` up to, not including, `high` have a compensation to run. */
  function CallsBetween(steps: seq<Step>, low: nat, high: nat): nat
    requires high <= |steps|
    decreases high - low
  {
    if low >= high then 0 else CallsBetween(steps, low + 1, high) + (if Undoable(steps[low]) then 1 else 0)
  }

  predicate Unstruck(world: World, since: nat, until: nat) {
    forall t :: since <= t < until ==> world(t).strike == NoStrike
  }

  /** The tick at which the compensation of step `j` is called, if the run gets to it. */
  function CallTick(steps: seq<Step>, f: Failure, j: nat): nat
    requires f.at <= |steps|
  {
    f.since + CallsBetween(steps, j + 1, f.at)
  }

  /** After the failure the compensation of step `j` is started: no deadline strikes in the calls
      for the steps behind it. */
  predicate CallStarts(steps: seq<Step>, world: World, f: Failure, j: nat)
    requires f.at <= |steps|
  {
    j < f.at && Undoable(steps[j]) && Unstruck(world, f.since, CallTick(steps, f, j))
  }

  /** And it is recorded: none strikes in its own call. */
  predicate CallRecorded(steps: seq<Step>, world: World, f: Failure, j: nat)
    requires f.at <= |steps|
  {
    CallStarts(steps, world, f, j) && world(CallTick(steps, f, j)).strike == NoStrike
  }

  predicate HasUndo(effects: seq<Effect>, j: nat) {
    exists a :: 0 <= a < |effects| && effects[a].Undo? && effects[a].position == j
  }

  lemma HasUndoAdds(effects: seq<Effect>, e: Effect, j: nat)
    ensures HasUndo(effects + [e], j) <==> HasUndo(effects, j) || (e.Undo? && e.position == j)
  {
    var more := effects + [e];
    assert more[|effects|] == e;
    if HasUndo(effects, j) {
      var a :| 0 <= a < |effects| && effects[a].Undo? && effects[a].position == j;
      assert more[a] == effects[a];
    }
  }

  /** The compensations before step `count` are still to be called. */
  ghost predicate Uncalled(p: Progress, count: nat, steps: seq<Step>, world: World, f: Failure) {
    && |p.steps| == |steps| && count <= f.at <= |steps|
    && (forall j :: 0 <= j < count ==> SamePlan(p.steps[j], steps[j]) && p.steps[j].undo == steps[j].undo)
    && p.tick == f.since + CallsBetween(steps, count, f.at) && Unstruck(world, f.since, p.tick)
  }

  /** What became of the compensation of step `j`. */
  predicate CalledAs(before: Progress, after: Progress, j: nat, starts: bool, recorded: bool)
    requires j < |before.steps| && j < |after.steps|
  {
    && (HasUndo(after.effects, j) <==> HasUndo(before.effects, j) || starts)
    && (after.steps[j].undo.executed <==> before.steps[j].undo.executed || recorded)
  }

  lemma {:induction false} CompensateLeaves(p: Progress, count: nat, world: World, j: nat)
    requires count <= j < |p.steps|
    ensures var after := Compensate(p, count, world).p;
            |after.steps| == |p.steps| && CalledAs(p, after, j, false, false)
    decreases count
  {
    if count > 0 {
      CompensateUnfolds(p, count, world);
      var k := count - 1;
      if Undoable(p.steps[k]) {
        HasUndoAdds(p.effects, Undo(k, p.steps[k].id, p.tick), j);
        if world(p.tick).strike == NoStrike {
          CompensateLeaves(Recorded(p, k, world(p.tick)), k, world, j);
        }
      } else {
        CompensateLeaves(p, k, world, j);
      }
    }
  }

  lemma {:induction false} StillFar(steps: seq<Step>, low: nat, high: nat, top: nat)
    requires low <= high <= top <= |steps|
    ensures CallsBetween(steps, low, top) >= CallsBetween(steps, high, top)
    decreases high - low
  {
    if low < high {
      StillFar(steps, low + 1, high, top);
    }
  }

  /** The call for step `k` itself, and the loop behind it. */
  lemma TopCall(p: Progress, k: nat, world: World, steps: seq<Step>, f: Failure)
    requires Uncalled(p, k + 1, steps, world, f)
    ensures var after := Compensate(p, k + 1, world).p;
            && |after.steps| == |p.steps|
            && CalledAs(p, after, k, CallStarts(steps, world, f, k), CallRecorded(steps, world, f, k))
  {
    CompensateUnfolds(p, k + 1, world);
    CompensateLength(p, k + 1, world);
    assert SamePlan(p.steps[k], steps[k]);
    if Undoable(p.steps[k]) {
      HasUndoAdds(p.effects, Undo(k, p.steps[k].id, p.tick), k);
      if world(p.tick).strike == NoStrike {
        CompensateLeaves(Recorded(p, k, world(p.tick)), k, world, k);
      }
    } else {
      CompensateLeaves(p, k, world, k);
    }
  }

  /** After a struck call nothing further is started. */
  lemma NothingFurther(p: Progress, k: nat, world: World, steps: seq<Step>, f: Failure, j: nat)
    requires Uncalled(p, k + 1, steps, world, f) && j < k && Undoable(steps[k])
    requires world(p.tick).strike != NoStrike
    ensures !CallStarts(steps, world, f, j)
  {
    StillFar(steps, j + 1, k, f.at);
    assert f.since <= p.tick < CallTick(steps, f, j);
  }

  lemma UncalledNext(p: Progress, k: nat, world: World, steps: seq<Step>, f: Failure)
    requires Uncalled(p, k + 1, steps, world, f)
    ensures !Undoable(p.steps[k]) ==> Uncalled(p, k, steps, world, f)
    ensures Undoable(p.steps[k]) && world(p.tick).strike == NoStrike ==>
              Uncalled(Recorded(p, k, world(p.tick)), k, steps, world, f)
  {
    assert SamePlan(p.steps[k], steps[k]);
  }

  lemma {:induction false} CompensateCalls(p: Progress, count: nat, world: World, steps: seq<Step>, f: Failure, j: nat)
    requires Uncalled(p, count, steps, world, f) && j < count
    ensures var after := Compensate(p, count, world).p;
            && |after.steps| == |p.steps|
            && CalledAs(p, after, j, CallStarts(steps, world, f, j), CallRecorded(steps, world, f, j))
    decreases count
  {
    var k := count - 1;
    CompensateLength(p, count, world);
    if j == k {
      TopCall(p, k, world, steps, f);
    } else {
      CompensateUnfolds(p, count, world);
      UncalledNext(p, k, world, steps, f);
      if !Undoable(p.steps[k]) {
        CompensateCalls(p, k, world, steps, f, j);
      } else {
        HasUndoAdds(p.effects, Undo(k, p.steps[k].id, p.tick), j);
        if world(p.tick).strike != NoStrike {
          assert SamePlan(p.steps[k], steps[k]);
          NothingFurther(p, k, world, steps, f, j);
        } else {
          CompensateCalls(Recorded(p, k, world(p.tick)), k, world, steps, f, j);
        }
      }
    }
  }

  // ---- a whole run

  /** With this failure, if any, the compensation of step `j` is started. */
  predicate StartsUndo(plan: Sequence, world: World, f: Option<Failure>, j: nat)
    requires f.Some? ==> f.value.at <= |plan.steps|
  {
    plan.allowCompensation && f.Some? && CallStarts(plan.steps, world, f.value, j)
  }

  predicate RecordsUndo(plan: Sequence, world: World, f: Option<Failure>, j: nat)
    requires f.Some? ==> f.value.at <= |plan.steps|
  {
    plan.allowCompensation && f.Some? && CallRecorded(plan.steps, world, f.value, j)
  }

  /** What a run does to step `j`. */
  ghost predicate CompensatedAs(p: Progress, after: Progress, plan: Sequence, world: World, f: Option<Failure>, j: nat)
    requires f.Some? ==> f.value.at <= |plan.steps|
  {
    && |after.steps| == |p.steps| == |plan.steps| && j < |p.steps|
    && (f.Some? ==> after.failedIndex == Some(f.value.at))
    && CalledAs(p, after, j, StartsUndo(plan, world, f, j), RecordsUndo(plan, world, f, j))
  }

  /** The loop head of a run that has had no failure yet. */
  ghost predicate Unfailed(p: Progress, idx: nat, plan: Sequence) {
    NothingUndone(p, idx, plan) && forall j :: 0 <= j < |p.steps| ==> p.steps[j].undo == plan.steps[j].undo
  }

  ghost predicate MoveDone(m: Move, p: Progress, idx: nat, plan: Sequence, world: World, j: nat)
    requires idx < |plan.steps|
  {
    var f := FirstFailure(plan, world, idx, p.tick);
    match m
    case Proceed(q) => Unfailed(q, idx + 1, plan) && f == FirstFailure(plan, world, idx + 1, q.tick)
    case Halt(stage) => CompensatedAs(p, stage.p, plan, world, f, j)
  }

  lemma FailureUncalled(p: Progress, idx: nat, plan: Sequence, end: AttemptEnd, world: World)
    requires Unfailed(p, idx, plan) && idx < |p.steps| && end.GaveUp?
    ensures Uncalled(Fail(Acted(p, end.effects, end.tick), idx, end.step, end.error), idx, plan.steps, world,
            Failure(idx, end.tick))
  {}

  lemma RecoverCalls(p: Progress, idx: nat, plan: Sequence, world: World, since: nat, j: nat)
    requires plan.stopOnFailure && Uncalled(p, idx, plan.steps, world, Failure(idx, since))
    requires idx < |p.steps| && j < |p.steps| && p.failedIndex == Some(idx)
    ensures var m := Recover(p, idx, plan, world);
            m.Halt? && CompensatedAs(p, m.stage.p, plan, world, Some(Failure(idx, since)), j)
  {
    var f := Failure(idx, since);
    CompensateKeepsRest(p, idx, world);
    if j < idx {
      CompensateCalls(p, idx, world, plan.steps, f, j);
    } else {
      CompensateLeaves(p, idx, world, j);
    }
  }

  lemma FailedStepDone(p: Progress, idx: nat, plan: Sequence, end: AttemptEnd, world: World, j: nat)
    requires plan.stopOnFailure && Unfailed(p, idx, plan) && idx < |p.steps| && j < |p.steps| && end.GaveUp?
    requires NoUndo(end.effects) && end.step.undo == p.steps[idx].undo
    ensures var m := AfterAttempts(p, idx, plan, end, world);
            m.Halt? && CompensatedAs(p, m.stage.p, plan, world, Some(Failure(idx, end.tick)), j)
  {
    FailureUncalled(p, idx, plan, end, world);
    RecoverCalls(Fail(Acted(p, end.effects, end.tick), idx, end.step, end.error), idx, plan, world, end.tick, j);
  }

  lemma WonStepDone(p: Progress, idx: nat, plan: Sequence, end: AttemptEnd, world: World, j: nat)
    requires plan.stopOnFailure && Unfailed(p, idx, plan) && idx < |p.steps| && j < |p.steps| && end.Achieved?
    requires !world(p.tick).cancel && Clear(plan.steps[idx].spec)
    requires NoUndo(end.effects) && SamePlan(end.step, p.steps[idx]) && end.step.undo == p.steps[idx].undo
    requires EndsLike(end, TurnFate(plan, world, idx, p.tick))
    ensures MoveDone(AfterAttempts(p, idx, plan, end, world), p, idx, plan, world, j)
  {}

  lemma StruckStepDone(p: Progress, idx: nat, plan: Sequence, end: AttemptEnd, world: World, j: nat)
    requires plan.stopOnFailure && Unfailed(p, idx, plan) && idx < |p.steps| && j < |p.steps| && end.Struck?
    requires !world(p.tick).cancel && Clear(plan.steps[idx].spec)
    requires NoUndo(end.effects) && end.step.undo == p.steps[idx].undo
    requires EndsLike(end, TurnFate(plan, world, idx, p.tick))
    ensures MoveDone(AfterAttempts(p, idx, plan, end, world), p, idx, plan, world, j)
  {}

  lemma TackledDone(p: Progress, idx: nat, plan: Sequence, world: World, j: nat)
    requires plan.stopOnFailure && Unfailed(p, idx, plan) && idx < |p.steps| && j < |p.steps|
    requires !world(p.tick).cancel && Clear(plan.steps[idx].spec)
    ensures MoveDone(Tackle(p, idx, plan, world), p, idx, plan, world, j)
  {
    assert SamePlan(p.steps[idx], plan.steps[idx]);
    var begun, limit := p.steps[idx].(status := Executing), AttemptLimit(plan.maxRetries);
    TurnDecides(p, idx, plan, world);
    AttemptsUndoNothing(idx, begun, 0, limit, None, world, p.effects, p.tick + 1);
    AttemptsKeepPlan(idx, begun, 0, limit, None, world, p.effects, p.tick + 1);
    var end := AttemptsAt(p, idx, plan, world);
    match end
    case Achieved(_, _, _) => WonStepDone(p, idx, plan, end, world, j);
    case Struck(_, _, _, _) => StruckStepDone(p, idx, plan, end, world, j);
    case GaveUp(_, _, _, _) => FailedStepDone(p, idx, plan, end, world, j);
  }

  lemma TurnDone(p: Progress, idx: nat, plan: Sequence, world: World, j: nat)
    requires plan.stopOnFailure && Unfailed(p, idx, plan) && idx < |p.steps| && j < |p.steps|
    ensures MoveDone(Turn(p, idx, plan, NoEvaluator, world), p, idx, plan, world, j)
  {
    assert SamePlan(p.steps[idx], plan.steps[idx]);
    ClearExactly(plan.steps[idx].spec, world(p.tick));
    if !world(p.tick).cancel && Clear(plan.steps[idx].spec) {
      TackledDone(p, idx, plan, world, j);
    }
  }

  lemma DoneFurther(p: Progress, q: Progress, after: Progress, plan: Sequence, world: World, f: Option<Failure>,
                    idx: nat, j: nat)
    requires f.Some? ==> f.value.at <= |plan.steps|
    requires Unfailed(p, idx, plan) && Unfailed(q, idx + 1, plan) && CompensatedAs(q, after, plan, world, f, j)
    ensures CompensatedAs(p, after, plan, world, f, j)
  {}

  lemma {:induction false} LoopDone(p: Progress, idx: nat, plan: Sequence, world: World, j: nat)
    requires plan.stopOnFailure && Unfailed(p, idx, plan) && j < |p.steps|
    ensures CompensatedAs(p, StepLoop(p, idx, plan, NoEvaluator, world).p, plan, world,
            FirstFailure(plan, world, idx, p.tick), j)
    decreases |p.steps| - idx
  {
    if idx == |p.steps| {
      assert StepLoop(p, idx, plan, NoEvaluator, world) == Ran(p);
    } else {
      TurnDone(p, idx, plan, world, j);
      var m := Turn(p, idx, plan, NoEvaluator, world);
      if m.Proceed? {
        LoopDone(m.p, idx + 1, plan, world, j);
        DoneFurther(p, m.p, StepLoop(m.p, idx + 1, plan, NoEvaluator, world).p, plan, world,
                    FirstFailure(plan, world, idx, p.tick), idx, j);
      }
      StepLoopUnfolds(p, idx, plan, NoEvaluator, world);
    }
  }

  /** The compensation of step `j` is started in the run of the plan that begins at `tick`. */
  predicate RunStarts(plan: Sequence, world: World, tick: nat, j: nat) {
    StartsUndo(plan, world, FirstFailure(plan, world, 0, tick), j)
  }

  /** It is started, and no deadline strikes in its own call. */
  predicate RunRecords(plan: Sequence, world: World, tick: nat, j: nat) {
    RecordsUndo(plan, world, FirstFailure(plan, world, 0, tick), j)
  }

  /** Whether a run carries out the compensation of step `j`, and whether its result says so, by
      the answers alone: it comes to a failure behind `j`, compensations are allowed and `j` has one
      to run, and no deadline strikes in the calls for the steps in between; and, to be on record,
      none in the call for `j` itself. A run that an enclosing deadline tears down leaves no result
      at all. */
  lemma RunUndoesExactly(plan: Sequence, world: World, tick: nat, j: nat)
    requires plan.stopOnFailure && j < |plan.steps|
    ensures var out, f := Execute(plan, NoEvaluator, world, tick), FirstFailure(plan, world, 0, tick);
            && (out.Returned? && f.Some? ==> out.result.failedIndex == Some(f.value.at))
            && (HasUndo(EffectsOf(out), j) <==> RunStarts(plan, world, tick, j))
            && (out.Returned? ==>
                  && |out.result.steps| == |plan.steps|
                  && (out.result.steps[j].undo.executed <==>
                        plan.steps[j].undo.executed || RunRecords(plan, world, tick, j)))
  {
    LoopDone(Start(plan, tick), 0, plan, world, j);
  }
}
