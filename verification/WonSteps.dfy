/** Exactly which steps a run completes, and what it keeps of them, told from the environment's
    answers. */
module WonSteps {
  import opened Domain
  import opened SequenceSpec
  import opened SequenceFacts
  import opened SequenceOutcome
  import opened Fates

  /** The tick of the answer that wins step `j`, in a run that is about to begin the turn of step
      `idx`: step after step is let in and wins, up to `j`. */
  function WonFrom(plan: Sequence, world: World, idx: nat, tick: nat, j: nat): (won: Option<nat>)
    requires idx <= |plan.steps|
    ensures won.Some? ==> idx <= j < |plan.steps|
    decreases |plan.steps| - idx
  {
    if idx == |plan.steps| || j < idx || world(tick).cancel || !Clear(plan.steps[idx].spec) then None
    else
      var fate := TurnFate(plan, world, idx, tick);
      if !fate.WonBy? then None
      else if idx == j then Some(fate.at)
      else WonFrom(plan, world, idx + 1, fate.at + 1, j)
  }

  /** The tick of the answer that wins step `j` of a run that starts at `tick`. */
  function WonAt(plan: Sequence, world: World, tick: nat, j: nat): (won: Option<nat>)
    ensures won.Some? ==> j < |plan.steps|
  {
    WonFrom(plan, world, 0, tick, j)
  }

  /** What a run keeps of a step: it is done exactly if it was won, and the answer that won it tells
      whether its actuation counts as accepted and whether it counts as verified. */
  predicate WonAs(s: Step, won: Option<nat>, world: World) {
    && (Done(s) <==> won.Some?)
    && (won.Some? ==>
          && s.accepted == world(won.value).accepted
          && (IsVerified(s) <==> SaysTrue(world(won.value).verdict))
          && (IsVerified(s) <==> SaysTrue(s.verdict)))
  }

  // ---- one turn

  /** The loop head of a run that has had no failure yet: nothing is done from `idx` on. */
  predicate Ahead(p: Progress, idx: nat, plan: Sequence) {
    && |p.steps| == |plan.steps| && idx <= |p.steps|
    && forall k :: idx <= k < |p.steps| ==> SamePlan(p.steps[k], plan.steps[k]) && p.steps[k].status == Pending
  }

  /** What the turn of step `idx` leaves: what was done before keeps all but its undo record. */
  ghost predicate MoveKeeps(m: Move, p: Progress, idx: nat)
    requires idx < |p.steps|
  {
    var after := if m.Proceed? then m.p.steps else m.stage.p.steps;
    && |after| == |p.steps|
    && (forall k :: 0 <= k < idx ==> SameButUndo(p.steps[k], after[k]))
    && (m.Proceed? ==> forall k :: idx < k < |p.steps| ==> after[k] == p.steps[k])
    && (m.Halt? ==> forall k :: idx <= k < |p.steps| ==> !Done(after[k]))
  }

  lemma RecoverKeeps(p: Progress, q: Progress, idx: nat, plan: Sequence, world: World)
    requires plan.stopOnFailure && idx < |p.steps| && Ahead(p, idx, plan)
    requires |q.steps| == |p.steps| && q.steps == p.steps[idx := q.steps[idx]] && q.steps[idx].status == StepFailed
    ensures var m := Recover(q, idx, plan, world); m.Halt? && MoveKeeps(m, p, idx)
  {
    CompensateFacts(q, idx, world);
    var steps := Compensate(q, idx, world).p.steps;
    assert forall k :: 0 <= k < |steps| ==> SameButUndo(q.steps[k], steps[k]);
    assert forall k :: 0 <= k < |p.steps| && k != idx ==> q.steps[k] == p.steps[k];
    Halted(p, Recover(q, idx, plan, world).stage, idx);
  }

  lemma Halted(p: Progress, stage: Stage, idx: nat)
    requires idx < |p.steps| == |stage.p.steps|
    requires forall k :: 0 <= k < idx ==> SameButUndo(p.steps[k], stage.p.steps[k])
    requires forall k :: idx <= k < |p.steps| ==> !Done(stage.p.steps[k])
    ensures MoveKeeps(Halt(stage), p, idx)
  {}

  lemma AttemptedKeeps(p: Progress, idx: nat, plan: Sequence, end: AttemptEnd, world: World)
    requires plan.stopOnFailure && idx < |p.steps| && Ahead(p, idx, plan)
    requires !end.Achieved? ==> end.step.status in {Executing, Recovering}
    ensures MoveKeeps(AfterAttempts(p, idx, plan, end, world), p, idx)
    ensures AfterAttempts(p, idx, plan, end, world).Proceed? <==> end.Achieved?
  {
    match end
    case Achieved(_, _, _) =>
    case Struck(_, _, _, _) => Halted(p, AfterAttempts(p, idx, plan, end, world).stage, idx);
    case GaveUp(_, _, _, _) =>
      RecoverKeeps(p, Fail(Acted(p, end.effects, end.tick), idx, end.step, end.error), idx, plan, world);
  }

  /** The turn of step `idx` tells of the steps from `idx` on. */
  ghost predicate MoveWins(m: Move, p: Progress, idx: nat, plan: Sequence, world: World, j: nat)
    requires idx < |plan.steps|
  {
    var won := WonFrom(plan, world, idx, p.tick, j);
    match m
    case Proceed(q) =>
      && Ahead(q, idx + 1, plan)
      && (j == idx ==> WonAs(q.steps[idx], won, world))
      && (j > idx ==> won == WonFrom(plan, world, idx + 1, q.tick, j))
    case Halt(_) => won == None
  }

  lemma TackledWins(p: Progress, idx: nat, plan: Sequence, world: World, j: nat)
    requires plan.stopOnFailure && Ahead(p, idx, plan) && idx < |p.steps| && idx <= j
    requires !world(p.tick).cancel && Clear(plan.steps[idx].spec)
    ensures MoveKeeps(Tackle(p, idx, plan, world), p, idx)
    ensures MoveWins(Tackle(p, idx, plan, world), p, idx, plan, world, j)
  {
    var begun, limit := p.steps[idx].(status := Executing), AttemptLimit(plan.maxRetries);
    assert SamePlan(begun, plan.steps[idx]);
    LimitIsAllowance(plan.maxRetries);
    AttemptsEnd(idx, begun, 0, limit, None, world, p.effects, p.tick + 1);
    AttemptsFacts(idx, begun, 0, limit, None, world, p.effects, p.tick + 1);
    AttemptedKeeps(p, idx, plan, AttemptsAt(p, idx, plan, world), world);
  }

  lemma TurnWins(p: Progress, idx: nat, plan: Sequence, world: World, j: nat)
    requires plan.stopOnFailure && Ahead(p, idx, plan) && idx < |p.steps| && idx <= j
    ensures MoveKeeps(Turn(p, idx, plan, NoEvaluator, world), p, idx)
    ensures MoveWins(Turn(p, idx, plan, NoEvaluator, world), p, idx, plan, world, j)
  {
    assert SamePlan(p.steps[idx], plan.steps[idx]);
    ClearExactly(plan.steps[idx].spec, world(p.tick));
    if !world(p.tick).cancel && Clear(plan.steps[idx].spec) {
      TackledWins(p, idx, plan, world, j);
    } else {
      Halted(p, Turn(p, idx, plan, NoEvaluator, world).stage, idx);
    }
  }

  // ---- a whole run

  /** What is done behind the loop head stays so. */
  lemma {:induction false} LoopKeeps(p: Progress, idx: nat, plan: Sequence, world: World, j: nat)
    requires plan.stopOnFailure && Ahead(p, idx, plan) && j < idx
    ensures var steps := StepLoop(p, idx, plan, NoEvaluator, world).p.steps;
            |steps| == |p.steps| && SameButUndo(p.steps[j], steps[j])
    decreases |p.steps| - idx
  {
    if idx < |p.steps| {
      TurnWins(p, idx, plan, world, idx);
      var m := Turn(p, idx, plan, NoEvaluator, world);
      if m.Proceed? {
        LoopKeeps(m.p, idx + 1, plan, world, j);
      }
      StepLoopUnfolds(p, idx, plan, NoEvaluator, world);
    }
  }

  lemma {:induction false} LoopWins(p: Progress, idx: nat, plan: Sequence, world: World, j: nat)
    requires plan.stopOnFailure && Ahead(p, idx, plan) && idx <= j < |p.steps|
    ensures var steps := StepLoop(p, idx, plan, NoEvaluator, world).p.steps;
            |steps| == |p.steps| && WonAs(steps[j], WonFrom(plan, world, idx, p.tick, j), world)
    decreases |p.steps| - idx
  {
    TurnWins(p, idx, plan, world, j);
    var m := Turn(p, idx, plan, NoEvaluator, world);
    if m.Proceed? {
      if j == idx {
        LoopKeeps(m.p, idx + 1, plan, world, j);
      } else {
        LoopWins(m.p, idx + 1, plan, world, j);
      }
    }
    StepLoopUnfolds(p, idx, plan, NoEvaluator, world);
  }

  /** Which steps a run completes, whether a result is written back or not, and what it keeps of
      them, by the answers alone: step `j` is done exactly if it is won, its actuation counts as
      accepted exactly if the winning answer says so, and it counts as verified exactly if that
      answer's verdict is TRUE. A step can be verified without an accepted actuation. */
  lemma RunWinsExactly(plan: Sequence, world: World, tick: nat, j: nat)
    requires plan.stopOnFailure && j < |plan.steps|
    ensures var stage := StepLoop(Start(plan, tick), 0, plan, NoEvaluator, world);
            |stage.p.steps| == |plan.steps| && WonAs(stage.p.steps[j], WonAt(plan, world, tick, j), world)
    ensures var out := Execute(plan, NoEvaluator, world, tick);
            out.Returned? ==>
              |out.result.steps| == |plan.steps| && WonAs(out.result.steps[j], WonAt(plan, world, tick, j), world)
  {
    LoopWins(Start(plan, tick), 0, plan, world, j);
  }

  // ---- how many attempts

  /** The answers to the attempts from `start` on are wasted, `n` of them. */
  ghost predicate WastedFor(world: World, spec: StepSpec, start: nat, n: nat) {
    forall t: nat :: start <= t < start + n ==> Wasted(world(t), spec)
  }

  lemma {:induction false} WastedAttempts(world: World, spec: StepSpec, start: nat, left: nat, n: nat)
    requires n < left && WastedFor(world, spec, start, n)
    ensures Completes(world(start + n), spec) ==>
              FateFrom(world, spec.requiresVerification, start, left) == WonBy(start + n)
    ensures n + 1 == left && Wasted(world(start + n), spec) ==>
              FateFrom(world, spec.requiresVerification, start, left) == LostAt(start + n)
    decreases n
  {
    if n > 0 {
      assert Wasted(world(start), spec);
      WastedAttempts(world, spec, start + 1, left - 1, n - 1);
    }
  }

  /** The tick at which the turn of step `j` begins, if the steps before it are won. */
  function TurnTick(plan: Sequence, world: World, tick: nat, j: nat): Option<nat> {
    if j == 0 then Some(tick)
    else
      var won := WonAt(plan, world, tick, j - 1);
      if won.Some? then Some(won.value + 1) else None
  }

  lemma {:induction false} WonNext(plan: Sequence, world: World, idx: nat, tick: nat, j: nat)
    requires idx < j < |plan.steps| && WonFrom(plan, world, idx, tick, j - 1).Some?
    ensures var begin := WonFrom(plan, world, idx, tick, j - 1).value + 1;
            WonFrom(plan, world, idx, tick, j)
            == if !world(begin).cancel && Clear(plan.steps[j].spec) && TurnFate(plan, world, j, begin).WonBy?
               then Some(TurnFate(plan, world, j, begin).at) else None
    decreases j - idx
  {
    if idx + 1 < j {
      WonNext(plan, world, idx + 1, TurnFate(plan, world, idx, tick).at + 1, j);
    }
  }

  lemma WonInTurn(plan: Sequence, world: World, tick: nat, j: nat)
    requires j < |plan.steps| && Clear(plan.steps[j].spec) && TurnTick(plan, world, tick, j).Some?
    requires !world(TurnTick(plan, world, tick, j).value).cancel
    ensures WonAt(plan, world, tick, j).Some? <==>
              TurnFate(plan, world, j, TurnTick(plan, world, tick, j).value).WonBy?
  {
    if j > 0 {
      WonNext(plan, world, 0, tick, j);
    }
  }

  /** Each retry the plan allows is made, and none more: a step that is let in and whose first attempts
      are wasted, as many as there are retries, is completed by the answer behind them, and lost if that
      one is wasted too. */
  lemma RetriesExactly(plan: Sequence, world: World, tick: nat, j: nat, r: nat)
    requires plan.stopOnFailure && j < |plan.steps| && Clear(plan.steps[j].spec)
    requires r == if plan.maxRetries > 0 then plan.maxRetries else 0
    requires TurnTick(plan, world, tick, j).Some?
    requires var begin := TurnTick(plan, world, tick, j).value;
      !world(begin).cancel && WastedFor(world, plan.steps[j].spec, begin + 1, r)
    ensures var last := TurnTick(plan, world, tick, j).value + 1 + r;
            var stage := StepLoop(Start(plan, tick), 0, plan, NoEvaluator, world);
            && |stage.p.steps| == |plan.steps|
            && (Completes(world(last), plan.steps[j].spec) ==> Done(stage.p.steps[j]))
            && (Wasted(world(last), plan.steps[j].spec) ==> !Done(stage.p.steps[j]))
  {
    WastedAttempts(world, plan.steps[j].spec, TurnTick(plan, world, tick, j).value + 1, r + 1, r);
    WonInTurn(plan, world, tick, j);
    RunWinsExactly(plan, world, tick, j);
  }
}
