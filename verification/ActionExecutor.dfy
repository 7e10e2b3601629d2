/** The loops of the sequence executor, each proved to compute its function in SequenceSpec. */
module ActionExecutor {
  import opened Domain
  import opened Recovery
  import opened SequenceSpec

  /** Sets the status of every step from `from` on. */
  method MarkRemaining(steps: seq<Step>, from: nat, status: StepStatus) returns (marked: seq<Step>)
    requires from <= |steps|
    ensures marked == SetFrom(steps, from, status)
  {
    marked := steps;
    for j := from to |steps|
      invariant |marked| == |steps|
      invariant forall k :: 0 <= k < |steps| ==>
                  marked[k] == if from <= k < j then steps[k].(status := status) else steps[k]
    {
      marked := marked[j := marked[j].(status := status)];
    }
  }

  /** Distinguishes actuation from verified success and checks bounded recovery. */
  method JudgeAttempt(step: Step, o: Obs, more: bool, effects: seq<Effect>, tick: nat) returns (t: Try)
    ensures t == Judge(step, o, more, effects, tick)
  {
    if SaysTrue(step.verdict) {
      return Over(Achieved(step.(status := VerifiedSuccess), effects, tick));
    } else if !step.spec.requiresVerification && step.accepted && o.success {
      return Over(Achieved(step.(status := ActuationAccepted, verdict := Some(Verdict(UNKNOWN, None))), effects, tick));
    }
    if !more {
      return Over(GaveUp(step, o.error, effects, tick));
    }
    var recovering := step.(status := Recovering);
    var strategy := DetermineStrategy(Some(AttemptFailure(step.verdict, step.accepted)));
    if GivesUp(strategy) {
      return Over(GaveUp(recovering, o.error, effects, tick));
    }
    if o.pauseStrike != NoStrike {
      return Over(Struck(o.pauseStrike, recovering, effects, tick));
    }
    return Again(recovering, o.error, effects, tick);
  }

  /** The observe-act-verify-recover loop of one step. */
  method AttemptStep(position: nat, step: Step, maxRetries: int, world: World, before: seq<Effect>, start: nat)
    returns (end: AttemptEnd)
    ensures end == Attempts(position, step, 0, AttemptLimit(maxRetries), None, world, before, start)
  {
    var current, effects, tick := step, before, start;
    var last: Option<ErrorCode> := None;
    var attempt, limit := 0, AttemptLimit(maxRetries);
    while attempt < limit
      invariant attempt <= limit == AttemptLimit(maxRetries)
      invariant current.id == step.id
      invariant Attempts(position, current, attempt, limit, last, world, effects, tick)
             == Attempts(position, step, 0, limit, None, world, before, start)
    {
      attempt := attempt + 1;
      var o := world(tick);
      tick := tick + 1;
      if o.cancel {
        return GaveUp(current, last, effects, tick);
      }
      effects := effects + [Forward(position, step.id, tick - 1)];
      if o.strike != NoStrike {
        return Struck(o.strike, current, effects, tick);
      }
      last := o.error;
      current := current.(accepted := o.accepted);
      if current.accepted && o.settleStrike != NoStrike {
        return Struck(o.settleStrike, current, effects, tick);
      }
      current := current.(verdict := o.verdict);
      var judged := JudgeAttempt(current, o, attempt < limit, effects, tick);
      if judged.Over? {
        return judged.end;
      }
      current := judged.step;
    }
    return GaveUp(current, last, effects, tick);
  }

  /** Runs the compensations of the steps before `failed`, last one first. */
  method CompensatePrefix(p: Progress, failed: nat, world: World) returns (stage: Stage)
    requires failed <= |p.steps|
    ensures stage == Compensate(p, failed, world)
  {
    var now := p;
    var count := failed;
    while count > 0
      invariant 0 <= count <= |now.steps|
      invariant Compensate(now, count, world) == Compensate(p, failed, world)
    {
      count := count - 1;
      var prev := now.steps[count];
      if prev.spec.compensation.Some? && !prev.undo.executed {
        var o := world(now.tick);
        now := now.(effects := now.effects + [Undo(count, prev.id, now.tick)], tick := now.tick + 1);
        if o.strike != NoStrike {
          return Hit(o.strike, now);
        }
        now := now.(steps := now.steps[count := Compensated(prev, o)], undone := now.undone + [count]);
      }
    }
    return Ran(now);
  }

  /** Settles what a sequence deadline interrupted. */
  method ExpireOpenSteps(steps: seq<Step>) returns (settled: seq<Step>)
    ensures settled == ExpireAll(steps)
  {
    settled := steps;
    for j := 0 to |steps|
      invariant |settled| == |steps|
      invariant forall k :: 0 <= k < |steps| ==> settled[k] == if k < j then Expire(steps[k]) else steps[k]
    {
      if Unsettled(settled[j].status) {
        settled := settled[j := Expire(settled[j])];
      }
    }
  }

  /** One turn of the sequence loop. */
  method RunStep(p: Progress, idx: nat, plan: Sequence, gate: Gate, world: World) returns (move: Move)
    requires idx < |p.steps|
    ensures move == Turn(p, idx, plan, gate, world)
  {
    var now := p;
    var step := now.steps[idx];
    var o := world(now.tick);
    now := now.(tick := now.tick + 1);
    if o.cancel {
      var cancelled := MarkRemaining(now.steps, idx, Cancelled);
      return Halt(Ran(now.(steps := cancelled, status := CancelledRun, error := Some(CancelledError))));
    }
    if Gated(step.spec) && !Allowed(step.spec, gate, o) {
      var denied := step.(status := StepFailed, error := Some(PermissionRequiredError));
      var skipped := MarkRemaining(now.steps[idx := denied], idx + 1, Skipped);
      return Halt(Ran(now.(steps := skipped, status := PermissionDenied,
                           error := Some(PermissionRequiredError), failedIndex := Some(idx))));
    }
    var end := AttemptStep(idx, step.(status := Executing), plan.maxRetries, world, now.effects, now.tick);
    now := now.(effects := end.effects, tick := end.tick);
    if end.Struck? {
      return Halt(Hit(end.strike, now.(steps := now.steps[idx := end.step])));
    }
    if end.Achieved? {
      now := now.(steps := now.steps[idx := end.step], completed := now.completed + 1);
      if end.step.status == VerifiedSuccess {
        now := now.(verified := now.verified + 1);
      }
      return Proceed(now);
    }
    now := Fail(now, idx, end.step, end.error);
    CompensateLength(now, idx, world);
    if plan.allowCompensation {
      var stage := CompensatePrefix(now, idx, world);
      if stage.Hit? {
        return Halt(stage);
      }
      now := stage.p;
    }
    if plan.stopOnFailure {
      var skipped := MarkRemaining(now.steps, idx + 1, Skipped);
      return Halt(Ran(now.(status := Partial(now.completed), steps := skipped)));
    }
    return Proceed(now);
  }

  /** Runs the sequence; `plan` is the caller's, and only the returned copy carries progress. */
  method ExecuteSequence(plan: Sequence, gate: Gate, world: World, startTick: nat) returns (outcome: Outcome)
    ensures outcome == Execute(plan, gate, world, startTick)
  {
    var now := Start(plan, startTick);
    var interrupted, strike := false, NoStrike;
    var idx := 0;
    ghost var whole := StepLoop(now, 0, plan, gate, world);
    while idx < |now.steps|
      invariant !interrupted && 0 <= idx <= |now.steps|
      invariant StepLoop(now, idx, plan, gate, world) == whole
    {
      TurnLength(now, idx, plan, gate, world);
      var move := RunStep(now, idx, plan, gate, world);
      if move.Halt? {
        now := move.stage.p;
        if move.stage.Hit? {
          interrupted, strike := true, move.stage.strike;
        }
        assert whole == move.stage;
        break;
      }
      now := move.p;
      idx := idx + 1;
    }
    if interrupted && strike == SequenceDeadline {
      var settled := ExpireOpenSteps(now.steps);
      return Returned(now.(status := Timeout, error := Some(TimeoutError), steps := settled));
    } else if interrupted {
      return Raised(now.effects, now.tick);
    }
    if now.status == Success && now.completed < |now.steps| {
      now := now.(status := Partial(now.completed));
    }
    return Returned(now);
  }
}
