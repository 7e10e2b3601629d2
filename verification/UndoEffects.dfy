/** The compensations a task actually carries out, recorded or not. */
module UndoEffects {
  import opened Domain
  import opened SequenceSpec
  import opened SequenceFacts
  import opened SequenceTrace
  import opened CompositeTask
  import opened CompositeTaskFacts
  import opened CompositeTaskSafety

  // ---- within one run

  /** The compensations among the effects run backwards over steps from `low` up to, not
      including, `high`, each that step's own. */
  ghost predicate UndoLog(effects: seq<Effect>, steps: seq<Step>, low: nat, high: nat) {
    && high <= |steps|
    && (forall a :: 0 <= a < |effects| && effects[a].Undo? ==>
          && low <= effects[a].position < high
          && effects[a].id == steps[effects[a].position].id
          && steps[effects[a].position].spec.compensation.Some?)
    && (forall a, b :: 0 <= a < b < |effects| && effects[a].Undo? && effects[b].Undo? ==>
          effects[a].position > effects[b].position)
  }

  ghost predicate NoUndo(effects: seq<Effect>) { forall a :: 0 <= a < |effects| ==> effects[a].Forward? }

  lemma {:induction false} AttemptsUndoNothing(position: nat, step: Step, attempt: nat, limit: nat,
                                               last: Option<ErrorCode>,
                                               world: World, effects: seq<Effect>, tick: nat)
    requires NoUndo(effects)
    ensures NoUndo(Attempts(position, step, attempt, limit, last, world, effects, tick).effects)
    decreases limit - attempt
  {
    if attempt < limit {
      AttemptsUnfold(position, step, attempt, limit, last, world, effects, tick);
      var t := Attempt(position, step, attempt + 1 < limit, last, world, effects, tick);
      if t.Again? {
        AttemptsUndoNothing(position, t.step, attempt + 1, limit, t.error, world, t.effects, t.tick);
      }
    }
  }

  ghost predicate SameSteps(a: seq<Step>, b: seq<Step>) {
    |a| == |b| && forall j :: 0 <= j < |a| ==> SamePlan(a[j], b[j])
  }

  lemma UndoLogged(effects: seq<Effect>, steps: seq<Step>, k: nat, high: nat, tick: nat)
    requires UndoLog(effects, steps, k + 1, high) && k < high && steps[k].spec.compensation.Some?
    ensures UndoLog(effects + [Undo(k, steps[k].id, tick)], steps, k, high)
  {}

  lemma {:induction false} CompensateLog(p: Progress, count: nat, high: nat, steps: seq<Step>, world: World)
    requires count <= high <= |p.steps| && SameSteps(p.steps, steps) && UndoLog(p.effects, steps, count, high)
    ensures UndoLog(Compensate(p, count, world).p.effects, steps, 0, high)
    decreases count
  {
    if count > 0 {
      CompensateUnfolds(p, count, world);
      var k := count - 1;
      if Undoable(p.steps[k]) {
        UndoLogged(p.effects, steps, k, high, p.tick);
        if world(p.tick).strike == NoStrike {
          CompensateLog(Recorded(p, k, world(p.tick)), k, high, steps, world);
        }
      } else {
        CompensateLog(p, k, high, steps, world);
      }
    }
  }

  /** The loop head of a run that has had no failure yet. */
  ghost predicate NothingUndone(p: Progress, idx: nat, plan: Sequence) {
    && idx <= |p.steps| && SameSteps(p.steps, plan.steps) && NoUndo(p.effects) && p.failedIndex.None?
  }

  /** Behind which step the compensations of a stage lie. */
  function Failure(p: Progress): nat { if p.failedIndex.Some? then p.failedIndex.value else 0 }

  ghost predicate StageLog(stage: Stage, plan: Sequence) { UndoLog(stage.p.effects, plan.steps, 0, Failure(stage.p)) }

  ghost predicate MoveLog(m: Move, idx: nat, plan: Sequence) {
    match m
    case Proceed(p) => NothingUndone(p, idx + 1, plan)
    case Halt(stage) => StageLog(stage, plan)
  }

  lemma RecoverLog(p: Progress, idx: nat, plan: Sequence, world: World)
    requires plan.stopOnFailure && idx < |p.steps| && SameSteps(p.steps, plan.steps) && NoUndo(p.effects)
    requires p.failedIndex == Some(idx)
    ensures MoveLog(Recover(p, idx, plan, world), idx, plan)
  {
    CompensateLog(p, idx, idx, plan.steps, world);
    CompensateFacts(p, idx, world);
  }

  lemma AttemptedLog(p: Progress, idx: nat, plan: Sequence, end: AttemptEnd, world: World)
    requires plan.stopOnFailure && NothingUndone(p, idx, plan) && idx < |p.steps|
    requires NoUndo(end.effects) && SamePlan(end.step, p.steps[idx])
    ensures MoveLog(AfterAttempts(p, idx, plan, end, world), idx, plan)
  {
    if end.GaveUp? {
      RecoverLog(Fail(Acted(p, end.effects, end.tick), idx, end.step, end.error), idx, plan, world);
    }
  }

  lemma KeptOutLog(p: Progress, idx: nat, plan: Sequence, world: World)
    requires NothingUndone(p, idx, plan) && idx < |p.steps|
    requires world(p.tick).cancel
             || (Gated(p.steps[idx].spec) && !Allowed(p.steps[idx].spec, NoEvaluator, world(p.tick)))
    ensures MoveLog(Turn(p, idx, plan, NoEvaluator, world), idx, plan)
  {}

  lemma TurnLog(p: Progress, idx: nat, plan: Sequence, world: World)
    requires plan.stopOnFailure && NothingUndone(p, idx, plan) && idx < |p.steps|
    ensures MoveLog(Turn(p, idx, plan, NoEvaluator, world), idx, plan)
  {
    if world(p.tick).cancel || (Gated(p.steps[idx].spec) && !Allowed(p.steps[idx].spec, NoEvaluator, world(p.tick))) {
      KeptOutLog(p, idx, plan, world);
    } else {
      var begun, limit := p.steps[idx].(status := Executing), AttemptLimit(plan.maxRetries);
      AttemptsUndoNothing(idx, begun, 0, limit, None, world, p.effects, p.tick + 1);
      AttemptsKeepPlan(idx, begun, 0, limit, None, world, p.effects, p.tick + 1);
      AttemptedLog(p, idx, plan, Attempts(idx, begun, 0, limit, None, world, p.effects, p.tick + 1), world);
    }
  }

  lemma {:induction false} StepLoopLog(p: Progress, idx: nat, plan: Sequence, world: World)
    requires plan.stopOnFailure && NothingUndone(p, idx, plan)
    ensures StageLog(StepLoop(p, idx, plan, NoEvaluator, world), plan)
    decreases |p.steps| - idx
  {
    if idx == |p.steps| {
      assert StepLoop(p, idx, plan, NoEvaluator, world) == Ran(p);
    } else {
      TurnLog(p, idx, plan, world);
      StepLoopUnfolds(p, idx, plan, NoEvaluator, world);
      var m := Turn(p, idx, plan, NoEvaluator, world);
      if m.Proceed? {
        StepLoopLog(m.p, idx + 1, plan, world);
      }
    }
  }

  function EffectsOf(out: Outcome): seq<Effect> { if out.Returned? then out.result.effects else out.effects }

  /** The compensations of a run, the one a deadline cut short included, go strictly backwards
      over the steps of its plan; in a returned result, over those before the failed one. */
  lemma RunUndoLog(plan: Sequence, world: World, tick: nat) returns (high: nat)
    requires plan.stopOnFailure
    ensures var out := Execute(plan, NoEvaluator, world, tick);
            && UndoLog(EffectsOf(out), plan.steps, 0, high)
            && (out.Returned? ==> high == Failure(out.result))
  {
    var stage := StepLoop(Start(plan, tick), 0, plan, NoEvaluator, world);
    StepLoopLog(Start(plan, tick), 0, plan, world);
    high := Failure(stage.p);
  }

  // ---- over the runs of a task

  /** No two compensations are of the same step. */
  ghost predicate UndosDiffer(effects: seq<Effect>) {
    forall a, b :: 0 <= a < b < |effects| && effects[a].Undo? && effects[b].Undo? ==>
      Root(effects[a].id) != Root(effects[b].id)
  }

  ghost predicate UndosAmong(effects: seq<Effect>, roots: seq<StepId>) {
    forall a :: 0 <= a < |effects| && effects[a].Undo? ==> Root(effects[a].id) in roots
  }

  lemma PieceRoot(steps: seq<Step>, j: nat)
    requires j < |steps| && !Injected(steps[j].id)
    ensures Root(steps[j].id) in RootsOf(Pieces(steps))
  {
    StepIsPiece(steps, j);
    var pieces := Pieces(steps);
    var i :| 0 <= i < |pieces| && pieces[i] == Piece(Root(steps[j].id), steps[j].spec);
    assert RootsOf(pieces)[i] == Root(steps[j].id);
  }

  lemma LogDiffers(effects: seq<Effect>, steps: seq<Step>, high: nat)
    requires UndoLog(effects, steps, 0, high) && WellIdentified(steps)
    ensures UndosDiffer(effects) && UndosAmong(effects, RootsOf(Pieces(steps[..high])))
  {
    forall a | 0 <= a < |effects| && effects[a].Undo?
      ensures !Injected(effects[a].id) && Root(effects[a].id) in RootsOf(Pieces(steps[..high]))
    {
      var u := effects[a].position;
      assert steps[u] in steps && steps[..high][u] == steps[u];
      PieceRoot(steps[..high], u);
    }
    forall a, b | 0 <= a < b < |effects| && effects[a].Undo? && effects[b].Undo?
      ensures Root(effects[a].id) != Root(effects[b].id)
    {
      PiecesInject(steps, effects[b].position, effects[a].position);
    }
  }

  lemma UndosTogether(a: seq<Effect>, b: seq<Effect>, left: seq<StepId>, right: seq<StepId>)
    requires UndosDiffer(a) && UndosDiffer(b) && UndosAmong(a, left) && UndosAmong(b, right)
    requires Distinct(left + right)
    ensures UndosDiffer(a + b) && UndosAmong(a + b, left + right)
  {
    forall i, j | 0 <= i < |a| && 0 <= j < |b| && a[i].Undo? && b[j].Undo? ensures Root(a[i].id) != Root(b[j].id) {
      var x, y := Root(a[i].id), Root(b[j].id);
      var k :| 0 <= k < |left| && left[k] == x;
      var m :| 0 <= m < |right| && right[m] == y;
      assert (left + right)[k] == x && (left + right)[|left| + m] == y;
    }
    forall i | 0 <= i < |a + b| && (a + b)[i].Undo? ensures Root((a + b)[i].id) in left + right {
      if i < |a| {
        assert Root(a[i].id) in left;
      } else {
        assert Root(b[i - |a|].id) in right;
      }
    }
  }

  /** The books of the task loop: what was undone so far belongs to distinct completed steps. */
  ghost predicate UndoBalance(s: TaskState, whole: seq<Piece>) {
    && Conserved(s, whole) && Distinct(RootsOf(whole))
    && (forall t :: t in s.plan.steps && Injected(t.id) ==> t.spec.compensation.None?)
    && UndosDiffer(s.effects) && UndosAmong(s.effects, RootsOf(CompletedPieces(s.actions)))
  }

  lemma StillIdentified(s: TaskState, whole: seq<Piece>)
    requires UndoBalance(s, whole)
    ensures WellIdentified(s.plan.steps)
    ensures RootsOf(whole) == RootsOf(CompletedPieces(s.actions)) + RootsOf(Pieces(s.plan.steps))
  {
    RootsConcat(CompletedPieces(s.actions), Pieces(s.plan.steps));
    assert RootsOf(Pieces(s.plan.steps)) == RootsOf(whole)[|CompletedPieces(s.actions)|..];
  }

  lemma Regroup(a: seq<StepId>, b: seq<StepId>, c: seq<StepId>)
    ensures a + (b + c) == (a + b) + c
  {}

  lemma FrontDistinct(front: seq<StepId>, back: seq<StepId>)
    requires Distinct(front + back)
    ensures Distinct(front)
  {
    assert forall i :: 0 <= i < |front| ==> (front + back)[i] == front[i];
  }

  lemma UndosAmongMore(effects: seq<Effect>, roots: seq<StepId>, more: seq<StepId>)
    requires UndosAmong(effects, roots)
    ensures UndosAmong(effects, roots + more)
  {}

  /** With the effects of one more run, wherever its compensations stopped. */
  lemma RunBalance(s: TaskState, whole: seq<Piece>, effects: seq<Effect>, high: nat)
    requires UndoBalance(s, whole) && UndoLog(effects, s.plan.steps, 0, high)
    ensures UndosDiffer(s.effects + effects) && UndosAmong(s.effects + effects, RootsOf(whole))
    ensures UndosAmong(s.effects + effects, RootsOf(CompletedPieces(s.actions)) + RootsOf(Pieces(s.plan.steps[..high])))
  {
    StillIdentified(s, whole);
    LogDiffers(effects, s.plan.steps, high);
    RootsTogether(s.plan.steps[..high], s.plan.steps[high..]);
    assert s.plan.steps[..high] + s.plan.steps[high..] == s.plan.steps;
    var left, right, rest := RootsOf(CompletedPieces(s.actions)), RootsOf(Pieces(s.plan.steps[..high])),
      RootsOf(Pieces(s.plan.steps[high..]));
    Regroup(left, right, rest);
    FrontDistinct(left + right, rest);
    UndosTogether(s.effects, effects, left, right);
    UndosAmongMore(s.effects + effects, left + right, rest);
  }

  /** A run that is followed by another has undone only what it had completed. */
  lemma RerunBalance(s: TaskState, r: Progress, k: nat, world: World, whole: seq<Piece>)
    requires UndoBalance(s, whole) && DoneTo(r, s.plan.steps, k) && React(s, r, world).Rerun?
    requires UndoLog(r.effects, s.plan.steps, 0, Failure(r))
    ensures UndoBalance(React(s, r, world).state, whole)
  {
    ReactShape(s, r, world);
    ReactConserves(s, r, k, world, whole);
    RunBalance(s, whole, r.effects, k);
    SplitAtFailure(r.steps, k);
    CompletedPiecesConcat(s.actions, Records(r.steps));
    PiecesSame(r.steps[..k], s.plan.steps[..k]);
    RootsConcat(CompletedPieces(s.actions), Pieces(r.steps[..k]));
    forall t | t in r.steps && Injected(t.id) ensures t.spec.compensation.None? {
      var j :| 0 <= j < |r.steps| && r.steps[j] == t;
      assert SamePlan(s.plan.steps[j], t) && s.plan.steps[j] in s.plan.steps;
    }
    ReplanRefocus(Logged(s, r).plan, k);
  }

  lemma {:induction false} LoopBalance(s: TaskState, world: World, whole: seq<Piece>)
    requires s.replans <= MaxReplans && UndoBalance(s, whole)
    ensures var run := Loop(s, world);
            UndosDiffer(run.state.effects) && UndosAmong(run.state.effects, RootsOf(whole))
    decreases MaxReplans - s.replans
  {
    var high := RunUndoLog(s.plan, world, s.tick);
    var k := RunSplit(s.plan, world, s.tick);
    var out := Execute(s.plan, NoEvaluator, world, s.tick);
    RunBalance(s, whole, EffectsOf(out), high);
    if out.Returned? {
      var r := out.result;
      ReactShape(s, r, world);
      LoopFollows(s, r, world);
      if React(s, r, world).Rerun? {
        RerunBalance(s, r, k, world, whole);
        LoopBalance(React(s, r, world).state, world, whole);
      }
    }
  }

  /** Over a whole task, replans included and whether recorded or cut short by a deadline, no two
      compensations carried out are of the same step, and each is of a step of the plan. */
  lemma NothingUndoneTwice(plan: Sequence, world: World, tick: nat)
    requires plan.stopOnFailure && WellIdentified(plan.steps)
    ensures var effects := RunTask(plan, world, tick).state.effects;
            UndosDiffer(effects) && UndosAmong(effects, RootsOf(Pieces(plan.steps)))
  {
    RunTaskIsLoop(plan, world, tick);
    LoopBalance(Begin(plan, tick), world, Pieces(plan.steps));
  }
}
