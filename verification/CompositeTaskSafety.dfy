/** Which effects a composite task may have, over all its replans. */
module CompositeTaskSafety {
  import opened Domain
  import opened Recovery
  import opened SequenceSpec
  import opened SequenceFacts
  import opened SequenceTrace
  import opened CompositeTask
  import opened CompositeTaskFacts
  import Compiler

  // ---- authorization and cancellation

  /** A forward actuation of a task belongs to a step of its plan, or to an injected refocus
      step; it was not started under a set cancel event; and its step is clear. */
  ghost predicate Rightful(e: Effect, whole: seq<Piece>, world: World, start: nat) {
    && start <= e.tick
    && (e.Forward? ==>
          && !world(e.tick).cancel
          && (Injected(e.id) || exists spec :: Piece(Root(e.id), spec) in whole && Clear(spec)))
  }

  lemma {:induction false} StepIsPiece(steps: seq<Step>, j: nat)
    requires j < |steps| && !Injected(steps[j].id)
    ensures Piece(Root(steps[j].id), steps[j].spec) in Pieces(steps)
  {
    if j > 0 {
      StepIsPiece(steps[1..], j - 1);
    }
  }

  lemma RunRightful(s: TaskState, world: World, whole: seq<Piece>, start: nat)
    requires Conserved(s, whole) && start <= s.tick
    ensures var out := Execute(s.plan, NoEvaluator, world, s.tick);
            var effects := if out.Returned? then out.result.effects else out.effects;
            var end := if out.Returned? then out.result.tick else out.tick;
            s.tick <= end && forall e :: e in effects ==> Rightful(e, whole, world, start) && e.tick < end
  {
    ExecutionIsLicensed(s.plan, NoEvaluator, world, s.tick);
    var out := Execute(s.plan, NoEvaluator, world, s.tick);
    var effects := if out.Returned? then out.result.effects else out.effects;
    forall e | e in effects ensures Rightful(e, whole, world, start) {
      assert Licensed(e, s.plan, NoEvaluator, world, s.tick);
      var step := s.plan.steps[e.position];
      if e.Forward? && !Injected(e.id) {
        StepIsPiece(s.plan.steps, e.position);
        assert Piece(Root(e.id), step.spec) in whole;
        assert Clear(step.spec);
      }
    }
  }

  lemma {:induction false} LoopRightful(s: TaskState, world: World, whole: seq<Piece>, start: nat)
    requires s.replans <= MaxReplans && Conserved(s, whole) && start <= s.tick
    requires forall e :: e in s.effects ==> Rightful(e, whole, world, start)
    ensures var run := Loop(s, world);
            s.tick <= run.state.tick && forall e :: e in run.state.effects ==> Rightful(e, whole, world, start)
    decreases MaxReplans - s.replans
  {
    RunRightful(s, world, whole, start);
    var k := RunSplit(s.plan, world, s.tick);
    var out := Execute(s.plan, NoEvaluator, world, s.tick);
    if out.Returned? {
      ReactShape(s, out.result, world);
      ReactConserves(s, out.result, k, world, whole);
      var reaction := React(s, out.result, world);
      if reaction.Rerun? {
        LoopRightful(reaction.state, world, whole, start);
      }
    }
  }

  /** A task never actuates a step that needs permission (except for reading system
      information), whatever its replans do; and once the cancel event is set it starts no
      forward actuation. */
  lemma EffectsAreRightful(plan: Sequence, world: World, tick: nat)
    requires plan.stopOnFailure
    ensures var run := RunTask(plan, world, tick);
            && tick <= run.state.tick
            && (forall e :: e in run.state.effects ==> Rightful(e, Pieces(plan.steps), world, tick))
            && (CancelLatches(world) ==>
                  forall e, t: nat :: e in run.state.effects && e.Forward? && world(t).cancel ==> e.tick < t)
  {
    RunTaskIsLoop(plan, world, tick);
    LoopRightful(Begin(plan, tick), world, Pieces(plan.steps), tick);
    assert forall e :: e in RunTask(plan, world, tick).state.effects ==> Rightful(e, Pieces(plan.steps), world, tick);
  }

  // ---- only steps that are let in are done

  ghost predicate GateKept(steps: seq<Step>) { forall j :: 0 <= j < |steps| && Done(steps[j]) ==> Clear(steps[j].spec) }

  lemma {:induction false} StepLoopGate(p: Progress, idx: nat, plan: Sequence, world: World)
    requires idx <= |p.steps| && GateKept(p.steps)
    ensures GateKept(StepLoop(p, idx, plan, NoEvaluator, world).p.steps)
    decreases |p.steps| - idx
  {
    if idx < |p.steps| {
      TurnGate(p, idx, plan, world);
      TurnLength(p, idx, plan, NoEvaluator, world);
      var move := Turn(p, idx, plan, NoEvaluator, world);
      if move.Proceed? {
        StepLoopGate(move.p, idx + 1, plan, world);
      }
    }
  }

  lemma TurnGate(p: Progress, idx: nat, plan: Sequence, world: World)
    requires idx < |p.steps| && GateKept(p.steps)
    ensures var m := Turn(p, idx, plan, NoEvaluator, world);
            GateKept((if m.Proceed? then m.p else m.stage.p).steps)
  {
    var o := world(p.tick);
    var step := p.steps[idx];
    if !o.cancel && !(Gated(step.spec) && !Allowed(step.spec, NoEvaluator, o)) {
      var begun := step.(status := Executing);
      AttemptsFacts(idx, begun, 0, AttemptLimit(plan.maxRetries), None, world, p.effects, p.tick + 1);
      var end := Attempts(idx, begun, 0, AttemptLimit(plan.maxRetries), None, world, p.effects, p.tick + 1);
      assert end.step.spec == step.spec && Clear(step.spec);
      if end.GaveUp? {
        var recorded := Fail(Acted(p, end.effects, end.tick), idx, end.step, end.error);
        assert GateKept(recorded.steps);
        RecoverGate(recorded, idx, plan, world);
      }
    }
  }

  lemma RecoverGate(p: Progress, idx: nat, plan: Sequence, world: World)
    requires idx < |p.steps| && GateKept(p.steps)
    ensures var m := Recover(p, idx, plan, world);
            GateKept((if m.Proceed? then m.p else m.stage.p).steps)
  {
    CompensateFacts(p, idx, world);
    var undone := Compensate(p, idx, world).p.steps;
    assert forall j :: 0 <= j < |undone| ==> SameButUndo(p.steps[j], undone[j]);
  }

  lemma ExecutionGate(plan: Sequence, world: World, tick: nat)
    ensures var out := Execute(plan, NoEvaluator, world, tick);
            out.Returned? ==> GateKept(out.result.steps)
  {
    StepLoopGate(Start(plan, tick), 0, plan, world);
  }

  // ---- compensations

  function RootsOf(pieces: seq<Piece>): (r: seq<StepId>)
    ensures |r| == |pieces|
    ensures forall j :: 0 <= j < |r| ==> r[j] == pieces[j].root
  {
    seq(|pieces|, j requires 0 <= j < |pieces| => pieces[j].root)
  }

  /** Steps have unique identifiers, and refocus steps have no compensation. */
  ghost predicate WellIdentified(steps: seq<Step>) {
    && Distinct(RootsOf(Pieces(steps)))
    && (forall s :: s in steps && Injected(s.id) ==> s.spec.compensation.None?)
  }

  lemma {:induction false} PiecesInject(steps: seq<Step>, i: nat, j: nat)
    requires i < j < |steps| && !Injected(steps[i].id) && !Injected(steps[j].id)
    requires Distinct(RootsOf(Pieces(steps)))
    ensures Root(steps[i].id) != Root(steps[j].id)
  {
    var roots := RootsOf(Pieces(steps));
    if i == 0 {
      StepIsPiece(steps[1..], j - 1);
      assert Pieces(steps) == [Pieces(steps)[0]] + Pieces(steps[1..]);
      var k :| 0 <= k < |Pieces(steps[1..])| && Pieces(steps[1..])[k] == Piece(Root(steps[j].id), steps[j].spec);
      assert roots[0] == Root(steps[0].id) && roots[k + 1] == Root(steps[j].id);
    } else {
      var skip := if Injected(steps[0].id) then 0 else 1;
      assert RootsOf(Pieces(steps[1..])) == roots[skip..];
      PiecesInject(steps[1..], i - 1, j - 1);
    }
  }

  ghost predicate UndoBooks(s: TaskState, whole: seq<Piece>) {
    && Conserved(s, whole)
    && Distinct(RootsOf(whole))
    && (forall t :: t in s.plan.steps && Injected(t.id) ==> t.spec.compensation.None?)
    && Distinct(s.undone)
    && (forall u :: u in s.undone ==> u in RootsOf(CompletedPieces(s.actions)))
  }

  /** The compensations of a run belong to distinct steps of the run's completed prefix. */
  lemma RunUndone(plan: Sequence, r: Progress, k: nat)
    requires plan.stopOnFailure && Undos(r, plan) && UndoneRight(r, plan) && DoneTo(r, plan.steps, k)
    requires WellIdentified(plan.steps)
    ensures var ids := UndoneIds(r.steps, r.undone);
            && Distinct(ids)
            && (forall u :: u in ids ==> u in RootsOf(Pieces(r.steps[..k])))
  {
    var ids := UndoneIds(r.steps, r.undone);
    forall a | 0 <= a < |ids|
      ensures r.undone[a] < k && !Injected(r.steps[r.undone[a]].id)
      ensures ids[a] == Root(plan.steps[r.undone[a]].id) && ids[a] in RootsOf(Pieces(r.steps[..k]))
    {
      var u := r.undone[a];
      assert u in r.undone && plan.steps[u] in plan.steps;
      StepIsPiece(r.steps[..k], u);
      var pieces := Pieces(r.steps[..k]);
      var j :| 0 <= j < |pieces| && pieces[j] == Piece(Root(r.steps[u].id), r.steps[u].spec);
      assert RootsOf(pieces)[j] == ids[a];
    }
    forall a, b | 0 <= a < b < |ids| ensures ids[a] != ids[b] {
      assert r.undone[a] > r.undone[b];
      PiecesInject(plan.steps, r.undone[b], r.undone[a]);
    }
  }

  lemma RootsConcat(a: seq<Piece>, b: seq<Piece>)
    ensures RootsOf(a + b) == RootsOf(a) + RootsOf(b)
  {}

  /** Distinct picks from two parts of a distinct sequence are distinct together. */
  lemma DistinctAppend(a: seq<StepId>, b: seq<StepId>, left: seq<StepId>, right: seq<StepId>)
    requires Distinct(a) && Distinct(b) && Distinct(left + right)
    requires forall x :: x in a ==> x in left
    requires forall x :: x in b ==> x in right
    ensures Distinct(a + b)
  {
    forall i, j | 0 <= i < |a| && 0 <= j < |b| ensures a[i] != b[j] {
      assert a[i] in a && a[i] in left && b[j] in b && b[j] in right;
      var k :| 0 <= k < |left| && left[k] == a[i];
      var m :| 0 <= m < |right| && right[m] == b[j];
      assert (left + right)[k] == a[i] && (left + right)[|left| + m] == b[j];
    }
  }

  lemma RootsTogether(a: seq<Step>, b: seq<Step>)
    ensures RootsOf(Pieces(a + b)) == RootsOf(Pieces(a)) + RootsOf(Pieces(b))
  {
    PiecesConcat(a, b);
    RootsConcat(Pieces(a), Pieces(b));
  }

  lemma BackDistinct(front: seq<StepId>, back: seq<StepId>)
    requires Distinct(front + back)
    ensures Distinct(back)
  {
    forall i, j | 0 <= i < j < |back| ensures back[i] != back[j] {
      assert (front + back)[|front| + i] == back[i] && (front + back)[|front| + j] == back[j];
    }
  }

  lemma LoggedActionRoots(s: TaskState, r: Progress, k: nat)
    requires DoneTo(r, s.plan.steps, k)
    ensures RootsOf(CompletedPieces(Logged(s, r).actions))
         == RootsOf(CompletedPieces(s.actions)) + RootsOf(Pieces(r.steps[..k]))
  {
    SplitAtFailure(r.steps, k);
    CompletedPiecesConcat(s.actions, Records(r.steps));
    RootsConcat(CompletedPieces(s.actions), Pieces(r.steps[..k]));
  }

  /** How a run that is done up to `k` divides the identities that are left. */
  lemma LoggedRoots(s: TaskState, r: Progress, k: nat, whole: seq<Piece>)
    requires UndoBooks(s, whole) && DoneTo(r, s.plan.steps, k)
    ensures var before, now, left := CompletedPieces(s.actions), Pieces(r.steps[..k]), Pieces(r.steps[k..]);
            && Distinct(RootsOf(before) + (RootsOf(now) + RootsOf(left)))
            && RootsOf(CompletedPieces(Logged(s, r).actions)) == RootsOf(before) + RootsOf(now)
            && WellIdentified(s.plan.steps)
  {
    PiecesSame(r.steps, s.plan.steps);
    RootsTogether(r.steps[..k], r.steps[k..]);
    assert r.steps[..k] + r.steps[k..] == r.steps;
    RootsConcat(CompletedPieces(s.actions), Pieces(s.plan.steps));
    BackDistinct(RootsOf(CompletedPieces(s.actions)), RootsOf(Pieces(s.plan.steps)));
    LoggedActionRoots(s, r, k);
  }

  lemma LoggedUndone(s: TaskState, r: Progress, k: nat, whole: seq<Piece>)
    requires UndoBooks(s, whole) && DoneTo(r, s.plan.steps, k)
    requires Undos(r, s.plan) && UndoneRight(r, s.plan)
    ensures var logged := Logged(s, r);
            && Distinct(logged.undone)
            && (forall u :: u in logged.undone ==> u in RootsOf(CompletedPieces(logged.actions)))
  {
    var before, now, left := CompletedPieces(s.actions), Pieces(r.steps[..k]), Pieces(r.steps[k..]);
    LoggedRoots(s, r, k, whole);
    RunUndone(s.plan, r, k);
    DistinctAppend(s.undone, UndoneIds(r.steps, r.undone), RootsOf(before), RootsOf(now) + RootsOf(left));
  }

  lemma ReplanRefocus(plan: Sequence, failed: nat)
    requires failed < |plan.steps|
    requires forall t :: t in plan.steps && Injected(t.id) ==> t.spec.compensation.None?
    ensures var repaired := Compiler.Replan(plan, failed, Some(InspectState));
            repaired.Some? && forall t :: t in repaired.value.steps && Injected(t.id) ==> t.spec.compensation.None?
  {
    var repaired := Compiler.Replan(plan, failed, Some(InspectState)).value;
    var rest := plan.steps[failed..];
    var head := |repaired.steps| - |rest|;
    forall j | 0 <= j < |repaired.steps| && Injected(repaired.steps[j].id)
      ensures repaired.steps[j].spec.compensation.None?
    {
      if j >= head {
        assert repaired.steps[j] == Compiler.Clone(rest[j - head], j);
        assert rest[j - head] in plan.steps;
      }
    }
  }

  lemma {:induction false} LoopUndone(s: TaskState, world: World, whole: seq<Piece>)
    requires s.replans <= MaxReplans && UndoBooks(s, whole)
    ensures var run := Loop(s, world);
            && Distinct(run.state.undone)
            && (forall u :: u in run.state.undone ==> u in RootsOf(CompletedPieces(run.state.actions)))
    decreases MaxReplans - s.replans
  {
    var k := RunSplit(s.plan, world, s.tick);
    CompensationsAreRecorded(s.plan, NoEvaluator, world, s.tick);
    var out := Execute(s.plan, NoEvaluator, world, s.tick);
    if out.Returned? {
      var r := out.result;
      RootsConcat(CompletedPieces(s.actions), Pieces(s.plan.steps));
      assert RootsOf(Pieces(s.plan.steps)) == RootsOf(whole)[|CompletedPieces(s.actions)|..];
      LoggedUndone(s, r, k, whole);
      ReactShape(s, r, world);
      ReactConserves(s, r, k, world, whole);
      var reaction := React(s, r, world);
      if reaction.Rerun? {
        assert forall t :: t in r.steps && Injected(t.id) ==> t.spec.compensation.None? by {
          forall j | 0 <= j < |r.steps| && Injected(r.steps[j].id) ensures r.steps[j].spec.compensation.None? {
            assert s.plan.steps[j] in s.plan.steps;
          }
        }
        ReplanRefocus(Logged(s, r).plan, k);
        LoopUndone(reaction.state, world, whole);
      }
    }
  }

  /** Over a whole task, replans included, no step's compensation is recorded twice, and only
      steps the task completed are compensated. */
  lemma CompensatedAtMostOnce(plan: Sequence, world: World, tick: nat)
    requires plan.stopOnFailure && WellIdentified(plan.steps)
    ensures var run := RunTask(plan, world, tick);
            && Distinct(run.state.undone)
            && (forall u :: u in run.state.undone ==> u in RootsOf(CompletedPieces(run.state.actions)))
  {
    RunTaskIsLoop(plan, world, tick);
    LoopUndone(Begin(plan, tick), world, Pieces(plan.steps));
  }
}
