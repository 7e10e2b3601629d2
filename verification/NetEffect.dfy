/** What a successful task leaves undone: a failed run compensates the steps it had finished, and
    the replan runs only the remainder. */
module NetEffect {
  import opened Domain
  import opened SequenceSpec
  import opened SequenceFacts
  import opened SequenceTrace
  import opened CompositeTask
  import opened CompositeTaskFacts
  import opened CompositeTaskTrace
  import opened Schedules
  import opened TaskOutcomes
  import opened UndoEffects
  import opened UndoOutcome
  import opened LastRun
  import Recovery
  import Compiler

  /** Some step that is not the last has a compensation to run, and it may be run. */
  predicate MayUndo(plan: Sequence) {
    plan.allowCompensation && exists j :: 0 <= j < |plan.steps| - 1 && Undoable(plan.steps[j])
  }

  // ---- the witness

  /** After the failed run at `at`, every undoable step before it has been compensated. */
  lemma FailureUndoes(plan: Sequence, start: nat, at: nat, code: Option<ErrorCode>, j: nat)
    requires plan.stopOnFailure && plan.allowCompensation && ClearFrom(plan.steps, 0)
    requires j < at < |plan.steps| && Undoable(plan.steps[j])
    ensures var world := FailingAt(start, at, code);
            var out := Execute(plan, NoEvaluator, world, start);
            && FailedAt(out, plan, at, code, world)
            && out.result.steps[j].undo.executed && IsVerified(out.result.steps[j])
            && Root(plan.steps[j].id) in UndoneIds(out.result.steps, out.result.undone)
  {
    var world := FailingAt(start, at, code);
    FailsOnce(plan, start, at, code);
    CompensationsAreRecorded(plan, NoEvaluator, world, start);
    var r := Execute(plan, NoEvaluator, world, start).result;
    assert r.steps[j].undo.executed && j in r.undone;
    var a :| 0 <= a < |r.undone| && r.undone[a] == j;
    assert UndoneIds(r.steps, r.undone)[a] == Root(r.steps[j].id);
  }

  /** A step that can be undone and is not the last: in some world the task succeeds although the
      step's effect was undone after it had completed. */
  lemma SuccessWithUndoneStep(plan: Sequence, j: nat) returns (world: World)
    requires plan.stopOnFailure && plan.allowCompensation && ClearFrom(plan.steps, 0)
    requires j < |plan.steps| - 1 && Undoable(plan.steps[j])
    ensures var run := RunTask(plan, world, 0);
            && run.end == TaskSucceeded && Root(plan.steps[j].id) in run.state.undone
            && Undone(run.state.effects, Root(plan.steps[j].id))
  {
    world := FailingAt(0, j + 1, None);
    FailureUndoes(plan, 0, j + 1, None, j);
    RunTaskIsLoop(plan, world, 0);
    var s, r := Begin(plan, 0), Execute(plan, NoEvaluator, world, 0).result;
    assert ClearFrom(r.steps, 0);
    RetrySucceeds(s, r, j + 1, world);
    RecordedIsUndone(plan, world, 0, j);
    EffectsOfFirst(s, r, world, Root(plan.steps[j].id));
  }

  /** The state a run hands on, or leaves behind, has its effects. */
  lemma ReactEffects(s: TaskState, r: Progress, world: World)
    ensures match React(s, r, world)
            case Stop(run) => run.state.effects == s.effects + r.effects
            case Rerun(next) => next.effects == s.effects + r.effects
  {}

  /** What was undone before is among the effects of the task. */
  lemma {:induction false} UndoneStays(s: TaskState, world: World, root: StepId)
    requires s.replans <= MaxReplans && Undone(s.effects, root)
    ensures Undone(Loop(s, world).state.effects, root)
    decreases MaxReplans - s.replans
  {
    var out := Execute(s.plan, NoEvaluator, world, s.tick);
    UndoneIn(s.effects, EffectsOf(out), root);
    if out.Returned? {
      ReactEffects(s, out.result, world);
      LoopFollows(s, out.result, world);
      if React(s, out.result, world).Rerun? {
        UndoneStays(React(s, out.result, world).state, world, root);
      }
    }
  }

  /** What the first run undid is among the effects of the task. */
  lemma EffectsOfFirst(s: TaskState, r: Progress, world: World, root: StepId)
    requires s.replans <= MaxReplans && Execute(s.plan, NoEvaluator, world, s.tick) == Returned(r)
    requires Undone(r.effects, root)
    ensures Undone(Loop(s, world).state.effects, root)
  {
    ReactEffects(s, r, world);
    LoopFollows(s, r, world);
    UndoneIn(s.effects, r.effects, root);
    if React(s, r, world).Rerun? {
      UndoneStays(React(s, r, world).state, world, root);
    }
  }

  /** What a task's memory keeps of a step that was verified and then undone. */
  ghost predicate KeepsUndone(run: TaskRun, plan: Sequence, j: nat, onRecord: bool)
    requires j < |plan.steps|
  {
    && run.end == TaskFails(Some(NavigationTimeout)) && |run.state.plan.steps| == |plan.steps|
    && var step := run.state.plan.steps[j];
       && SamePlan(step, plan.steps[j]) && step.accepted && IsVerified(step) && step.undo.executed == onRecord
       && Undone(run.state.effects, Root(step.id))
  }

  /** A task whose only failure carries a tool's "TIMEOUT" code is not replanned: its memory keeps
      the compensated step, accepted and with its compensation on record. */
  lemma TaskKeepsUndoneStep(plan: Sequence, start: nat, j: nat)
    requires plan.stopOnFailure && plan.allowCompensation && ClearFrom(plan.steps, 0)
    requires j < |plan.steps| - 1 && Undoable(plan.steps[j])
    ensures KeepsUndone(RunTask(plan, FailingAt(start, j + 1, Some(ToolError("TIMEOUT"))), start), plan, j, true)
  {
    var code := Some(ToolError("TIMEOUT"));
    var world := FailingAt(start, j + 1, code);
    FailureUndoes(plan, start, j + 1, code, j);
    RunTaskIsLoop(plan, world, start);
    var s, r := Begin(plan, start), Execute(plan, NoEvaluator, world, start).result;
    assert world(r.tick) == Good;
    RecordedIsUndone(plan, world, start, j);
    LoopFollows(s, r, world);
    StopsOnTimeout(s, r, world);
    assert SamePlan(r.steps[j], plan.steps[j]);
    assert [] + r.effects == r.effects;
  }

  // ---- undone off the record

  /** For a run that starts at `start`: the attempt at step `at` fails, and the sequence's own
      deadline strikes in the next request, the first compensation. */
  function CutShortAt(start: nat, at: nat): World {
    t => if t == start + 2 * at + 1 then Bad
         else if t == start + 2 * at + 2 then Good.(strike := SequenceDeadline)
         else Good
  }

  lemma CutShortHalts(p: Progress, j: nat, plan: Sequence, world: World)
    requires plan.stopOnFailure && plan.allowCompensation && j + 1 < |p.steps| && Undoable(p.steps[j])
    requires Clear(p.steps[j + 1].spec) && p.status == Success
    requires world(p.tick) == Good && world(p.tick + 1) == Bad && world(p.tick + 2) == Good.(strike := SequenceDeadline)
    ensures var m := Turn(p, j + 1, plan, NoEvaluator, world);
            && m.Halt? && m.stage.Hit? && m.stage.strike == SequenceDeadline && |m.stage.p.steps| == |p.steps|
            && m.stage.p.steps[j] == p.steps[j] && m.stage.p.tick == p.tick + 3
            && m.stage.p.effects != []
               && m.stage.p.effects[|m.stage.p.effects| - 1] == Undo(j, p.steps[j].id, p.tick + 2)
  {
    BadAttempt(p, j + 1, plan, None, world);
    var end := AttemptsAt(p, j + 1, plan, world);
    var failed := Fail(Acted(p, end.effects, end.tick), j + 1, end.step, end.error);
    CompensateUnfolds(failed, j + 1, world);
  }

  lemma LastIsUndone(effects: seq<Effect>, root: StepId)
    requires effects != [] && effects[|effects| - 1].Undo? && Root(effects[|effects| - 1].id) == root
    ensures Undone(effects, root)
  {}

  /** The result of such a run. */
  ghost predicate CutShort(r: Progress, plan: Sequence, j: nat, world: World)
    requires j < |plan.steps|
  {
    && r.status == Timeout && IsTimeout(r.error) && !world(r.tick).cancel && |r.steps| == |plan.steps|
    && SamePlan(r.steps[j], plan.steps[j]) && r.steps[j].accepted && IsVerified(r.steps[j])
    && r.steps[j].undo == plan.steps[j].undo && Undone(r.effects, Root(plan.steps[j].id))
  }

  lemma CutShortRun(plan: Sequence, start: nat, j: nat)
    requires plan.stopOnFailure && plan.allowCompensation && ClearFrom(plan.steps, 0)
    requires j < |plan.steps| - 1 && Undoable(plan.steps[j])
    ensures var world := CutShortAt(start, j + 1);
            var out := Execute(plan, NoEvaluator, world, start);
            out.Returned? && CutShort(out.result, plan, j, world)
  {
    var world := CutShortAt(start, j + 1);
    var q := GoodPrefix(Start(plan, start), 0, j + 1, plan, world);
    CutShortHalts(q, j, plan, world);
    StepLoopUnfolds(q, j + 1, plan, NoEvaluator, world);
    var p := Turn(q, j + 1, plan, NoEvaluator, world).stage.p;
    LastIsUndone(p.effects, Root(plan.steps[j].id));
  }

  lemma CutShortEnds(s: TaskState, r: Progress, j: nat, world: World)
    requires j < |s.plan.steps| && CutShort(r, s.plan, j, world) && s.effects == [] && !s.plan.steps[j].undo.executed
    ensures React(s, r, world).Stop? && KeepsUndone(React(s, r, world).run, s.plan, j, false)
  {
    StopsOnTimeout(s, r, world);
    assert [] + r.effects == r.effects;
  }

  /** When the sequence's own deadline strikes inside a compensation, the task fails and its memory
      keeps the step as verified and not undone, although it was undone. */
  lemma TaskLosesRecord(plan: Sequence, start: nat, j: nat)
    requires plan.stopOnFailure && plan.allowCompensation && ClearFrom(plan.steps, 0)
    requires j < |plan.steps| - 1 && Undoable(plan.steps[j])
    ensures KeepsUndone(RunTask(plan, CutShortAt(start, j + 1), start), plan, j, false)
  {
    var world := CutShortAt(start, j + 1);
    CutShortRun(plan, start, j);
    var s, r := Begin(plan, start), Execute(plan, NoEvaluator, world, start).result;
    CutShortEnds(s, r, j, world);
    RunTaskIsLoop(plan, world, start);
    LoopFollows(s, r, world);
  }

  // ---- without it nothing is undone

  lemma ReplanMayUndo(plan: Sequence, failed: nat)
    requires failed < |plan.steps|
    ensures var repaired := Compiler.Replan(plan, failed, Some(Recovery.InspectState));
            repaired.Some? && (MayUndo(repaired.value) ==> MayUndo(plan))
  {
    var repaired := Compiler.Replan(plan, failed, Some(Recovery.InspectState)).value;
    var rest := plan.steps[failed..];
    var head := |repaired.steps| - |rest|;
    if MayUndo(repaired) {
      var j :| 0 <= j < |repaired.steps| - 1 && Undoable(repaired.steps[j]);
      assert j >= head;
      assert repaired.steps[j] == Compiler.Clone(rest[j - head], j) && rest[j - head] == plan.steps[failed + j - head];
      assert Undoable(plan.steps[failed + j - head]);
    }
  }

  /** Steps from the failed one on are as undoable as they were. */
  lemma ResultMayUndo(plan: Sequence, r: Progress)
    requires plan.stopOnFailure && Undos(r, plan) && UndoneRight(r, plan) && r.failedIndex.Some?
    ensures MayUndo(plan.(steps := r.steps)) ==> MayUndo(plan)
  {
    if MayUndo(plan.(steps := r.steps)) {
      var j :| 0 <= j < |r.steps| - 1 && Undoable(r.steps[j]);
      assert SamePlan(r.steps[j], plan.steps[j]);
      assert Undoable(plan.steps[j]);
    }
  }

  lemma RunUndoesNothing(plan: Sequence, world: World, tick: nat)
    requires plan.stopOnFailure && !MayUndo(plan)
    ensures NoUndo(EffectsOf(Execute(plan, NoEvaluator, world, tick)))
  {
    var effects := EffectsOf(Execute(plan, NoEvaluator, world, tick));
    var high := RunUndoLog(plan, world, tick);
    forall a | 0 <= a < |effects| ensures effects[a].Forward? {
      if effects[a].Undo? {
        var j := effects[a].position;
        assert HasUndo(effects, j);
        RunUndoesExactly(plan, world, tick, j);
        assert false;
      }
    }
  }

  /** The plan of the next run has no more to undo. */
  lemma RerunMayUndo(s: TaskState, r: Progress, world: World)
    requires s.plan.stopOnFailure && Execute(s.plan, NoEvaluator, world, s.tick) == Returned(r)
    requires React(s, r, world).Rerun?
    ensures var next := React(s, r, world).state;
            next.plan.stopOnFailure && (MayUndo(next.plan) ==> MayUndo(s.plan))
  {
    ReactShape(s, r, world);
    CompensationsAreRecorded(s.plan, NoEvaluator, world, s.tick);
    ExecutionIsTruthful(s.plan, NoEvaluator, world, s.tick);
    ResultMayUndo(s.plan, r);
    ReplanMayUndo(Logged(s, r).plan, r.failedIndex.value);
    ReplanKeepsPieces(Logged(s, r).plan, r.failedIndex.value);
  }

  lemma {:induction false} LoopUndoesNothing(s: TaskState, world: World)
    requires s.replans <= MaxReplans && s.plan.stopOnFailure && !MayUndo(s.plan) && NoUndo(s.effects)
    ensures NoUndo(Loop(s, world).state.effects)
    decreases MaxReplans - s.replans
  {
    RunUndoesNothing(s.plan, world, s.tick);
    var out := Execute(s.plan, NoEvaluator, world, s.tick);
    if out.Returned? {
      var r := out.result;
      ReactEffects(s, r, world);
      LoopFollows(s, r, world);
      if React(s, r, world).Rerun? {
        RerunMayUndo(s, r, world);
        LoopUndoesNothing(React(s, r, world).state, world);
      }
    }
  }

  /** Success tells that no compensation was carried out, recorded or not, in every world, exactly
      for the plans that may not compensate, hold a step that is never let in, or have nothing to
      compensate before their last step. */
  lemma SuccessStandsExactly(plan: Sequence)
    requires plan.stopOnFailure
    ensures (forall world: World, tick: nat ::
               RunTask(plan, world, tick).end == TaskSucceeded ==> NoUndo(RunTask(plan, world, tick).state.effects))
       <==> !plan.allowCompensation || !ClearFrom(plan.steps, 0)
            || forall j :: 0 <= j < |plan.steps| - 1 ==> !Undoable(plan.steps[j])
  {
    if MayUndo(plan) && ClearFrom(plan.steps, 0) {
      var j :| 0 <= j < |plan.steps| - 1 && Undoable(plan.steps[j]);
      var world := SuccessWithUndoneStep(plan, j);
      assert RunTask(plan, world, 0).end == TaskSucceeded && !NoUndo(RunTask(plan, world, 0).state.effects);
    } else {
      forall world: World, tick: nat | RunTask(plan, world, tick).end == TaskSucceeded
        ensures NoUndo(RunTask(plan, world, tick).state.effects)
      {
        RunTaskIsLoop(plan, world, tick);
        if !MayUndo(plan) {
          LoopUndoesNothing(Begin(plan, tick), world);
        } else {
          SucceedsExactlyWhenClear(plan);
          assert false;
        }
      }
    }
  }

  // ---- compiled plans

  lemma CompiledIsClear(intents: seq<Compiler.Intent>)
    ensures ClearFrom(Compiler.CompilePlan(intents).steps, 0) <==> forall k :: 0 <= k < |intents| ==> !intents[k].policy
    ensures forall k :: 0 <= k < |intents| ==>
              (Undoable(Compiler.CompilePlan(intents).steps[k]) <==> intents[k].action in {TypeText, Input, RightClick})
  {
    var steps := Compiler.CompilePlan(intents).steps;
    forall k | 0 <= k < |intents|
      ensures Gated(steps[k].spec) <==> intents[k].policy
      ensures steps[k].spec.requiredPermission == None
      ensures Undoable(steps[k]) <==> intents[k].action in {TypeText, Input, RightClick}
    {
      Compiler.CompiledShape(intents, k);
    }
  }

  /** A compiled plan that types or right-clicks before its last intent, and asks for no
      permission: some world lets its task succeed, every promised intent carrying TRUE for its
      check, although that very step's effect was undone and never made again. */
  lemma TypedTextIsUndone(intents: seq<Compiler.Intent>, k: nat) returns (world: World)
    requires forall j :: 0 <= j < |intents| ==> !intents[j].policy
    requires k < |intents| - 1 && intents[k].action in {TypeText, Input, RightClick}
    ensures var run := RunTask(Compiler.CompilePlan(intents), world, 0);
            && run.end == TaskSucceeded && Planned(k) in run.state.undone && Undone(run.state.effects, Planned(k))
            && KeptPromises(intents, run.state.actions)
  {
    CompiledIsClear(intents);
    var plan := Compiler.CompilePlan(intents);
    Compiler.CompiledShape(intents, k);
    world := SuccessWithUndoneStep(plan, k);
    CompiledSuccessIsTruthful(intents, world, 0);
  }

  /** For compiled plans the condition is one on the intents. */
  lemma CompiledSuccessStandsExactly(intents: seq<Compiler.Intent>)
    ensures (forall world: World, tick: nat ::
               RunTask(Compiler.CompilePlan(intents), world, tick).end == TaskSucceeded ==>
                 NoUndo(RunTask(Compiler.CompilePlan(intents), world, tick).state.effects))
       <==> (exists k :: 0 <= k < |intents| && intents[k].policy)
            || forall k :: 0 <= k < |intents| - 1 ==> intents[k].action !in {TypeText, Input, RightClick}
  {
    CompiledIsClear(intents);
    SuccessStandsExactly(Compiler.CompilePlan(intents));
  }
}
