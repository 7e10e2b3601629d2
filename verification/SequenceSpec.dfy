/** What running one composite sequence means, as functions of the plan, the evaluator that
    was passed and the environment. ActionExecutor holds the loops that compute this. */
module SequenceSpec {
  import opened Domain
  import opened Recovery
  import Permissions

  /** Whether the caller passed a permission evaluator. */
  datatype Gate = NoEvaluator | Evaluator

  function Scope(s: StepSpec): CapabilityScope {
    if s.requiredPermission.Some? then s.requiredPermission.value else ComputerControl
  }

  /** Without an evaluator an empty one is built, so only the default policy can clear a step. */
  predicate Allowed(s: StepSpec, gate: Gate, o: Obs) {
    match gate
    case NoEvaluator => Permissions.Clears(Permissions.DefaultDecision(Scope(s)))
    case Evaluator => o.authorized
  }

  /** The runtime passes no evaluator: what needs a permission is kept out, unless it only reads system
      information. */
  predicate Clear(spec: StepSpec) {
    match spec.requiredPermission
    case None => !spec.consequential
    case Some(scope) => scope == SystemInformation
  }

  function AttemptLimit(maxRetries: int): nat { if maxRetries + 1 > 1 then maxRetries + 1 else 1 }

  datatype AttemptEnd =
    | Achieved(step: Step, effects: seq<Effect>, tick: nat)
    | GaveUp(step: Step, error: Option<ErrorCode>, effects: seq<Effect>, tick: nat)
    | Struck(strike: Strike, step: Step, effects: seq<Effect>, tick: nat)

  /** What one attempt leads to. */
  datatype Try = Again(step: Step, error: Option<ErrorCode>, effects: seq<Effect>, tick: nat) | Over(end: AttemptEnd)

  /** One attempt: act, wait for the screen to settle, verify; `more` tells whether another
      attempt is left, and `last` is the error of the previous one. */
  function Attempt(position: nat, step: Step, more: bool, last: Option<ErrorCode>,
                   world: World, effects: seq<Effect>, tick: nat): Try
  {
    var o := world(tick);
    if o.cancel then Over(GaveUp(step, last, effects, tick + 1))
    else
      var acted := effects + [Forward(position, step.id, tick)];
      var actuated := step.(accepted := o.accepted);
      if o.strike != NoStrike then Over(Struck(o.strike, step, acted, tick + 1))
      else if o.accepted && o.settleStrike != NoStrike then Over(Struck(o.settleStrike, actuated, acted, tick + 1))
      else Judge(actuated.(verdict := o.verdict), o, more, acted, tick + 1)
  }

  /** What the verdict on an attempt decides. */
  function Judge(step: Step, o: Obs, more: bool, effects: seq<Effect>, tick: nat): Try {
    if SaysTrue(step.verdict) then
      Over(Achieved(step.(status := VerifiedSuccess), effects, tick))
    else if !step.spec.requiresVerification && step.accepted && o.success then
      Over(Achieved(step.(status := ActuationAccepted, verdict := Some(Verdict(UNKNOWN, None))), effects, tick))
    else if !more then Over(GaveUp(step, o.error, effects, tick))
    else
      var recovering := step.(status := Recovering);
      if GivesUp(DetermineStrategy(Some(AttemptFailure(step.verdict, step.accepted)))) then
        Over(GaveUp(recovering, o.error, effects, tick))
      else if o.pauseStrike != NoStrike then Over(Struck(o.pauseStrike, recovering, effects, tick))
      else Again(recovering, o.error, effects, tick)
  }

  /** The attempts that remain for the step at `position`. */
  function Attempts(position: nat, step: Step, attempt: nat, limit: nat, last: Option<ErrorCode>,
                    world: World, effects: seq<Effect>, tick: nat): AttemptEnd
    decreases limit - attempt, 1
  {
    if attempt >= limit then GaveUp(step, last, effects, tick)
    else NextAttempt(position, step, attempt, limit, last, world, effects, tick)
  }

  /** The next attempt and those after it. */
  function NextAttempt(position: nat, step: Step, attempt: nat, limit: nat, last: Option<ErrorCode>,
                       world: World, effects: seq<Effect>, tick: nat): AttemptEnd
    requires attempt < limit
    decreases limit - attempt, 0
  {
    match Attempt(position, step, attempt + 1 < limit, last, world, effects, tick)
    case Over(end) => end
    case Again(next, error, acted, later) =>
      Attempts(position, next, attempt + 1, limit, error, world, acted, later)
  }

  lemma AttemptsUnfold(position: nat, step: Step, attempt: nat, limit: nat, last: Option<ErrorCode>,
                       world: World, effects: seq<Effect>, tick: nat)
    requires attempt < limit
    ensures var t := Attempt(position, step, attempt + 1 < limit, last, world, effects, tick);
            Attempts(position, step, attempt, limit, last, world, effects, tick)
            == if t.Over? then t.end
               else Attempts(position, t.step, attempt + 1, limit, t.error, world, t.effects, t.tick)
  {
    assert Attempts(position, step, attempt, limit, last, world, effects, tick)
        == NextAttempt(position, step, attempt, limit, last, world, effects, tick);
  }

  /** The variables of the sequence loop; also the result it reports. */
  datatype Progress = Progress(
    steps: seq<Step>,
    completed: nat,
    verified: nat,
    failedIndex: Option<nat>,
    undone: seq<nat>,
    status: TerminalStatus,
    error: Option<ErrorCode>,
    effects: seq<Effect>,
    tick: nat)

  /** A loop ran to its end, or a deadline struck inside it. */
  datatype Stage = Ran(p: Progress) | Hit(strike: Strike, p: Progress)

  /** The compensations still to run for the steps before `count`, last one first. */
  function Compensate(p: Progress, count: nat, world: World): Stage
    requires count <= |p.steps|
    decreases count, 1
  {
    if count == 0 then Ran(p) else NextUndo(p, count - 1, world)
  }

  predicate Undoable(s: Step) { s.spec.compensation.Some? && !s.undo.executed }

  /** The compensation of the step at `k`, if it has one to run, and those of the steps before. */
  function NextUndo(p: Progress, k: nat, world: World): Stage
    requires k < |p.steps|
    decreases k + 1, 0
  {
    if !Undoable(p.steps[k]) then Compensate(p, k, world)
    else if world(p.tick).strike != NoStrike then Hit(world(p.tick).strike, Called(p, k))
    else Compensate(Recorded(p, k, world(p.tick)), k, world)
  }

  lemma CompensateUnfolds(p: Progress, count: nat, world: World)
    requires 0 < count <= |p.steps|
    ensures var k := count - 1;
            Compensate(p, count, world)
            == if !Undoable(p.steps[k]) then Compensate(p, k, world)
               else if world(p.tick).strike != NoStrike then Hit(world(p.tick).strike, Called(p, k))
               else Compensate(Recorded(p, k, world(p.tick)), k, world)
  {
    assert Compensate(p, count, world) == NextUndo(p, count - 1, world);
  }

  /** The compensation at `k` was started. */
  function Called(p: Progress, k: nat): Progress
    requires k < |p.steps|
  {
    p.(effects := p.effects + [Undo(k, p.steps[k].id, p.tick)], tick := p.tick + 1)
  }

  /** The state after the compensation at `k` was recorded. */
  function Recorded(p: Progress, k: nat, o: Obs): Progress
    requires k < |p.steps|
  {
    Called(p, k).(steps := p.steps[k := Compensated(p.steps[k], o)], undone := p.undone + [k])
  }

  function Compensated(s: Step, o: Obs): Step {
    var verified := if o.verdict.Some? then o.verdict.value.verified else if o.success then TRUE else FALSE;
    s.(undo := UndoRecord(true, verified))
  }

  function SetFrom(steps: seq<Step>, from: nat, status: StepStatus): (r: seq<Step>)
    requires from <= |steps|
    ensures |r| == |steps|
    ensures forall j :: 0 <= j < |steps| ==> r[j] == if j < from then steps[j] else steps[j].(status := status)
  {
    seq(|steps|, j requires 0 <= j < |steps| => if j < from then steps[j] else steps[j].(status := status))
  }

  function Partial(completed: nat): TerminalStatus { if completed > 0 then PartialFailure else Failed }

  /** The step failed: record it, before compensation. */
  function Fail(p: Progress, idx: nat, step: Step, last: Option<ErrorCode>): Progress
    requires idx < |p.steps|
  {
    var code := if last.Some? then last.value else if step.accepted then VerificationError else ActuationError;
    p.(steps := p.steps[idx := step.(status := StepFailed, error := Some(code))],
       failedIndex := Some(idx), error := Some(code))
  }

  function Deny(p: Progress, idx: nat): Progress
    requires idx < |p.steps|
  {
    var denied := p.steps[idx := p.steps[idx].(status := StepFailed, error := Some(PermissionRequiredError))];
    p.(steps := SetFrom(denied, idx + 1, Skipped), status := PermissionDenied,
       error := Some(PermissionRequiredError), failedIndex := Some(idx))
  }

  function Advance(p: Progress, idx: nat, step: Step): Progress
    requires idx < |p.steps|
  {
    p.(steps := p.steps[idx := step], completed := p.completed + 1,
       verified := p.verified + (if step.status == VerifiedSuccess then 1 else 0))
  }

  /** The state behind one answer of the environment, and behind a step's attempts. */
  function Answered(p: Progress): Progress { p.(tick := p.tick + 1) }
  function Acted(p: Progress, effects: seq<Effect>, tick: nat): Progress { p.(effects := effects, tick := tick) }

  /** What one turn of the sequence loop leads to. */
  datatype Move = Proceed(p: Progress) | Halt(stage: Stage)

  /** The step at `idx` gave up: compensate what came before it, then stop or go on. */
  function Recover(p: Progress, idx: nat, plan: Sequence, world: World): Move
    requires idx < |p.steps|
  {
    CompensateLength(p, idx, world);
    AfterUndo(if plan.allowCompensation then Compensate(p, idx, world) else Ran(p), idx, plan)
  }

  function AfterUndo(undo: Stage, idx: nat, plan: Sequence): Move
    requires idx < |undo.p.steps|
  {
    if undo.Hit? then Halt(undo)
    else if plan.stopOnFailure then
      Halt(Ran(undo.p.(status := Partial(undo.p.completed), steps := SetFrom(undo.p.steps, idx + 1, Skipped))))
    else Proceed(undo.p)
  }

  function CancelFrom(p: Progress, idx: nat): Progress
    requires idx <= |p.steps|
  {
    p.(steps := SetFrom(p.steps, idx, Cancelled), status := CancelledRun, error := Some(CancelledError))
  }

  /** What the outcome of a step's attempts leads to. */
  function AfterAttempts(p: Progress, idx: nat, plan: Sequence, end: AttemptEnd, world: World): Move
    requires idx < |p.steps|
  {
    var acted := Acted(p, end.effects, end.tick);
    match end
    case Achieved(done, _, _) => Proceed(Advance(acted, idx, done))
    case Struck(strike, hit, _, _) => Halt(Hit(strike, acted.(steps := acted.steps[idx := hit])))
    case GaveUp(failed, last, _, _) => Recover(Fail(acted, idx, failed, last), idx, plan, world)
  }

  /** The attempts at the step at `idx`, once its turn has begun. */
  function AttemptsAt(p: Progress, idx: nat, plan: Sequence, world: World): AttemptEnd
    requires idx < |p.steps|
  {
    Attempts(idx, p.steps[idx].(status := Executing), 0, AttemptLimit(plan.maxRetries), None, world, p.effects,
             p.tick + 1)
  }

  /** These attempts, and what they lead to. */
  function Tackle(p: Progress, idx: nat, plan: Sequence, world: World): Move
    requires idx < |p.steps|
  {
    AfterAttempts(p, idx, plan, AttemptsAt(p, idx, plan, world), world)
  }

  /** One turn of the sequence loop: cancellation check, authorization gate, then the step. */
  function Turn(p: Progress, idx: nat, plan: Sequence, gate: Gate, world: World): Move
    requires idx < |p.steps|
  {
    var o := world(p.tick);
    var step := p.steps[idx];
    if o.cancel then Halt(Ran(CancelFrom(Answered(p), idx)))
    else if Gated(step.spec) && !Allowed(step.spec, gate, o) then Halt(Ran(Deny(Answered(p), idx)))
    else Tackle(p, idx, plan, world)
  }

  lemma TurnLength(p: Progress, idx: nat, plan: Sequence, gate: Gate, world: World)
    requires idx < |p.steps|
    ensures var m := Turn(p, idx, plan, gate, world);
            |(if m.Proceed? then m.p else m.stage.p).steps| == |p.steps|
  {
    forall q: Progress | |q.steps| == |p.steps| {
      CompensateLength(q, idx, world);
    }
  }

  /** The sequence loop from step `idx` on. */
  function StepLoop(p: Progress, idx: nat, plan: Sequence, gate: Gate, world: World): Stage
    requires idx <= |p.steps|
    decreases |p.steps| - idx, 1
  {
    if idx == |p.steps| then Ran(p) else StepsFrom(p, idx, plan, gate, world)
  }

  /** The turn at `idx` and those after it. */
  function StepsFrom(p: Progress, idx: nat, plan: Sequence, gate: Gate, world: World): Stage
    requires idx < |p.steps|
    decreases |p.steps| - idx, 0
  {
    TurnLength(p, idx, plan, gate, world);
    match Turn(p, idx, plan, gate, world)
    case Halt(stage) => stage
    case Proceed(next) => StepLoop(next, idx + 1, plan, gate, world)
  }

  lemma StepLoopUnfolds(p: Progress, idx: nat, plan: Sequence, gate: Gate, world: World)
    requires idx < |p.steps|
    ensures var move := Turn(p, idx, plan, gate, world);
            && (move.Halt? ==> StepLoop(p, idx, plan, gate, world) == move.stage)
            && (move.Proceed? ==> |move.p.steps| == |p.steps|
                                  && StepLoop(p, idx, plan, gate, world)
                                     == StepLoop(move.p, idx + 1, plan, gate, world))
  {
    TurnLength(p, idx, plan, gate, world);
    assert StepLoop(p, idx, plan, gate, world) == StepsFrom(p, idx, plan, gate, world);
  }

  lemma {:induction false} CompensateLength(p: Progress, count: nat, world: World)
    requires count <= |p.steps|
    ensures |Compensate(p, count, world).p.steps| == |p.steps|
    decreases count
  {
    if count > 0 {
      CompensateUnfolds(p, count, world);
      CompensateLength(p, count - 1, world);
      CompensateLength(Recorded(p, count - 1, world(p.tick)), count - 1, world);
    }
  }

  /** Success is withdrawn when some step did not complete. */
  function Conclude(p: Progress): Progress {
    if p.status == Success && p.completed < |p.steps| then p.(status := Partial(p.completed)) else p
  }

  predicate Unsettled(status: StepStatus) { status == Pending || status == Executing || status == Recovering }

  /** How the sequence's own deadline settles a step. */
  function Expire(s: Step): Step {
    if !Unsettled(s.status) then s
    else
      s.(status := if s.status == Pending then Skipped else StepFailed,
         error := if s.error.None? then Some(TimeoutError) else s.error)
  }

  function ExpireAll(steps: seq<Step>): (r: seq<Step>)
    ensures |r| == |steps|
    ensures forall j :: 0 <= j < |steps| ==> r[j] == Expire(steps[j])
  {
    seq(|steps|, j requires 0 <= j < |steps| => Expire(steps[j]))
  }

  /** The execution copy: indices and statuses are reset, nothing else. */
  function Fresh(steps: seq<Step>): (r: seq<Step>)
    ensures |r| == |steps|
    ensures forall j :: 0 <= j < |steps| ==> r[j] == steps[j].(index := j, status := Pending)
  {
    seq(|steps|, j requires 0 <= j < |steps| => steps[j].(index := j, status := Pending))
  }

  function Start(plan: Sequence, tick: nat): Progress {
    Progress(Fresh(plan.steps), 0, 0, None, [], Success, None, [], tick)
  }

  /** The call returned a result, or an enclosing deadline tore it down before the steps were
      written back. */
  datatype Outcome = Returned(result: Progress) | Raised(effects: seq<Effect>, tick: nat)

  function Finish(stage: Stage): Outcome {
    match stage
    case Ran(p) => Returned(Conclude(p))
    case Hit(strike, p) =>
      if strike == SequenceDeadline then
        Returned(p.(status := Timeout, error := Some(TimeoutError), steps := ExpireAll(p.steps)))
      else Raised(p.effects, p.tick)
  }

  function Execute(plan: Sequence, gate: Gate, world: World, tick: nat): Outcome {
    Finish(StepLoop(Start(plan, tick), 0, plan, gate, world))
  }
}
