/** When a step and a whole sequence succeed, told from the environment's answers alone. */
module SequenceOutcome {
  import opened Domain
  import opened Recovery
  import opened SequenceSpec
  import opened SequenceTrace
  import opened Fates

  /** The attempt was made and judged: no cancel, and no deadline before the verdict. */
  predicate Judged(o: Obs) { !o.cancel && o.strike == NoStrike && (o.accepted ==> o.settleStrike == NoStrike) }

  /** The answer completes a step: an authoritative TRUE, or, where none is required, an accepted
      and successful actuation. */
  predicate Completes(o: Obs, spec: StepSpec) {
    Judged(o) && (SaysTrue(o.verdict) || (!spec.requiresVerification && o.accepted && o.success))
  }

  /** The answer costs an attempt and nothing else. */
  predicate Wasted(o: Obs, spec: StepSpec) {
    && Judged(o) && !Completes(o, spec) && o.pauseStrike == NoStrike
    && !(o.verdict.Some? && o.verdict.value.failure in {Some(CaptchaDetected), Some(ExecutionFailed)})
  }

  /** The answer at `at` completes the step, and all those from `start` up to it were wasted. */
  predicate WinsAt(world: World, spec: StepSpec, start: nat, at: nat) {
    start <= at && Completes(world(at), spec) && forall t :: start <= t < at ==> Wasted(world(t), spec)
  }

  /** The attempts from `start` on, `left` of them, bring success. */
  ghost predicate WinsWithin(world: World, spec: StepSpec, start: nat, left: nat) {
    exists at: nat :: at < start + left && WinsAt(world, spec, start, at)
  }

  /** The actuations of the first n attempts. */
  function Tries(position: nat, id: StepId, tick: nat, n: nat): seq<Effect>
    decreases n
  {
    if n == 0 then [] else [Forward(position, id, tick)] + Tries(position, id, tick + 1, n - 1)
  }

  lemma TriesAfterOne(position: nat, id: StepId, tick: nat, n: nat, effects: seq<Effect>)
    requires n > 0
    ensures effects + Tries(position, id, tick, n)
         == effects + [Forward(position, id, tick)] + Tries(position, id, tick + 1, n - 1)
    ensures n == 1 ==> effects + Tries(position, id, tick, n) == effects + [Forward(position, id, tick)]
  {}

  /** What one answer makes of the attempt it belongs to; the step of the induction behind
      StepSucceedsExactly. */
  lemma AttemptOutcome(position: nat, step: Step, more: bool, last: Option<ErrorCode>, world: World,
                       effects: seq<Effect>, tick: nat)
    ensures var t, o := Attempt(position, step, more, last, world, effects, tick), world(tick);
            && (Completes(o, step.spec) <==> t.Over? && t.end.Achieved?)
            && (Completes(o, step.spec) ==>
               t.end.tick == tick + 1 && t.end.effects == effects + [Forward(position, step.id, tick)])
            && (Wasted(o, step.spec) && more <==> t.Again?)
            && (t.Again? ==> t.tick == tick + 1 && t.effects == effects + [Forward(position, step.id, tick)]
                             && SamePlan(t.step, step))
  {
    var o := world(tick);
    AttemptGivesUp(o.verdict, o.accepted);
  }

  lemma LaterWins(world: World, spec: StepSpec, start: nat, left: nat)
    requires Wasted(world(start), spec) && left > 0
    ensures WinsWithin(world, spec, start, left) <==> WinsWithin(world, spec, start + 1, left - 1)
  {
    if WinsWithin(world, spec, start, left) {
      var at: nat :| at < start + left && WinsAt(world, spec, start, at);
      assert WinsAt(world, spec, start + 1, at);
    }
    if WinsWithin(world, spec, start + 1, left - 1) {
      var at: nat :| at < start + left && WinsAt(world, spec, start + 1, at);
      assert WinsAt(world, spec, start, at);
    }
  }

  lemma FirstAnswerDecides(world: World, spec: StepSpec, start: nat, left: nat)
    requires left > 0 && (Wasted(world(start), spec) ==> left == 1)
    ensures WinsWithin(world, spec, start, left) <==> Completes(world(start), spec)
  {
    if Completes(world(start), spec) {
      assert WinsAt(world, spec, start, start);
    }
  }

  /** The attempts end in success exactly when one of the answers left brings it, and at that one. */
  ghost predicate WonBy(end: AttemptEnd, world: World, spec: StepSpec, tick: nat, left: nat) {
    && (end.Achieved? <==> WinsWithin(world, spec, tick, left))
    && (end.Achieved? ==> end.tick > tick && WinsAt(world, spec, tick, end.tick - 1))
  }

  lemma WonLater(end: AttemptEnd, world: World, spec: StepSpec, tick: nat, left: nat)
    requires Wasted(world(tick), spec) && left > 0 && WonBy(end, world, spec, tick + 1, left - 1)
    ensures WonBy(end, world, spec, tick, left)
  {
    LaterWins(world, spec, tick, left);
  }

  lemma WonNow(end: AttemptEnd, world: World, spec: StepSpec, tick: nat, left: nat)
    requires left > 0 && (Wasted(world(tick), spec) ==> left == 1)
    requires end.Achieved? <==> Completes(world(tick), spec)
    requires end.Achieved? ==> end.tick == tick + 1
    ensures WonBy(end, world, spec, tick, left)
  {
    FirstAnswerDecides(world, spec, tick, left);
  }

  lemma {:induction false} WinsExactly(position: nat, step: Step, attempt: nat, limit: nat, last: Option<ErrorCode>,
                                       world: World, effects: seq<Effect>, tick: nat)
    requires attempt <= limit
    ensures WonBy(Attempts(position, step, attempt, limit, last, world, effects, tick), world, step.spec, tick,
            limit - attempt)
    decreases limit - attempt
  {
    if attempt < limit {
      AttemptsUnfold(position, step, attempt, limit, last, world, effects, tick);
      AttemptOutcome(position, step, attempt + 1 < limit, last, world, effects, tick);
      var t := Attempt(position, step, attempt + 1 < limit, last, world, effects, tick);
      var end := Attempts(position, step, attempt, limit, last, world, effects, tick);
      if t.Again? {
        WinsExactly(position, t.step, attempt + 1, limit, t.error, world, t.effects, t.tick);
        WonLater(end, world, step.spec, tick, limit - attempt);
      } else {
        WonNow(end, world, step.spec, tick, limit - attempt);
      }
    }
  }

  lemma {:induction false} ActuatesExactly(position: nat, step: Step, attempt: nat, limit: nat, last: Option<ErrorCode>,
                                           world: World, effects: seq<Effect>, tick: nat)
    requires attempt <= limit
    ensures var end := Attempts(position, step, attempt, limit, last, world, effects, tick);
            end.Achieved? ==>
              end.tick > tick && end.effects == effects + Tries(position, step.id, tick, end.tick - tick)
    decreases limit - attempt
  {
    if attempt < limit {
      AttemptsUnfold(position, step, attempt, limit, last, world, effects, tick);
      AttemptOutcome(position, step, attempt + 1 < limit, last, world, effects, tick);
      var t := Attempt(position, step, attempt + 1 < limit, last, world, effects, tick);
      var end := Attempts(position, step, attempt, limit, last, world, effects, tick);
      if t.Again? {
        ActuatesExactly(position, t.step, attempt + 1, limit, t.error, world, t.effects, t.tick);
      }
      if end.Achieved? {
        TriesAfterOne(position, step.id, tick, end.tick - tick, effects);
      }
    }
  }

  /** A step completes exactly when, among the attempts that are left, one answer completes it
      after nothing but wasted ones; it then has been actuated once for each of them. */
  lemma StepSucceedsExactly(position: nat, step: Step, attempt: nat, limit: nat, last: Option<ErrorCode>,
                            world: World, effects: seq<Effect>, tick: nat)
    requires attempt <= limit
    ensures var end := Attempts(position, step, attempt, limit, last, world, effects, tick);
            && WonBy(end, world, step.spec, tick, limit - attempt)
            && (end.Achieved? ==> end.effects == effects + Tries(position, step.id, tick, end.tick - tick))
  {
    WinsExactly(position, step, attempt, limit, last, world, effects, tick);
    ActuatesExactly(position, step, attempt, limit, last, world, effects, tick);
  }

  // ---- a cancel inside the attempts

  /** A cancel event shows within the attempts from `start` on, `left` of them, after nothing but
      wasted answers. */
  ghost predicate CancelsWithin(world: World, spec: StepSpec, start: nat, left: nat) {
    exists at: nat :: start <= at < start + left && world(at).cancel && forall t :: start <= t < at ==>
      Wasted(world(t), spec)
  }

  lemma CancelledIsNotWon(world: World, spec: StepSpec, start: nat, left: nat)
    requires CancelsWithin(world, spec, start, left)
    ensures !WinsWithin(world, spec, start, left)
  {
    forall b: nat | WinsAt(world, spec, start, b) ensures b >= start + left {
    }
  }

  // ---- a whole sequence

  /** How a run that has had no failure yet may end, told from the answers. */
  datatype Ending = AllDone | CancelSeen | Refused | CancelMidStep

  /** The step's turn begins without a cancel, and the step is not gated or the gate lets it in. */
  predicate LetIn(spec: StepSpec, gate: Gate, o: Obs) {
    && !o.cancel
    && if gate == NoEvaluator then Clear(spec)
       else (!spec.consequential && spec.requiredPermission == None) || o.authorized
  }

  /** The run ends so at the step at `idx`, whose turn begins at `tick`. */
  ghost predicate EndsHere(ending: Ending, plan: Sequence, gate: Gate, world: World, idx: nat, tick: nat)
    requires idx < |plan.steps|
  {
    var spec, o := plan.steps[idx].spec, world(tick);
    match ending
    case AllDone => false
    case CancelSeen => o.cancel
    case Refused => !o.cancel && !LetIn(spec, gate, o)
    case CancelMidStep => LetIn(spec, gate, o) && CancelsWithin(world, spec, tick + 1, Allowance(plan.maxRetries))
  }

  /** From step `idx` at `tick` on, step after step is let in and wins, until the run ends so. */
  ghost predicate Road(ending: Ending, plan: Sequence, gate: Gate, world: World, idx: nat, tick: nat)
    requires idx <= |plan.steps|
    decreases |plan.steps| - idx, 1
  {
    if idx == |plan.steps| then ending == AllDone
    else
      || EndsHere(ending, plan, gate, world, idx, tick)
      || (LetIn(plan.steps[idx].spec, gate, world(tick)) && RoadFrom(ending, plan, gate, world, idx, tick + 1))
  }

  /** The step at `idx`, attempted from `start` on, wins, and the road goes on behind it. */
  ghost predicate RoadFrom(ending: Ending, plan: Sequence, gate: Gate, world: World, idx: nat, start: nat)
    requires idx < |plan.steps|
    decreases |plan.steps| - idx, 0
  {
    exists at: nat :: at < start + Allowance(plan.maxRetries) && WinsAt(world, plan.steps[idx].spec, start, at)
                      && Road(ending, plan, gate, world, idx + 1, at + 1)
  }

  lemma WinsOnce(world: World, spec: StepSpec, start: nat, a: nat, b: nat)
    requires WinsAt(world, spec, start, a) && WinsAt(world, spec, start, b)
    ensures a == b
  {}

  lemma RoadAfterWin(ending: Ending, plan: Sequence, gate: Gate, world: World, idx: nat, start: nat, won: nat)
    requires idx < |plan.steps| && WinsAt(world, plan.steps[idx].spec, start, won)
    requires WinsWithin(world, plan.steps[idx].spec, start, Allowance(plan.maxRetries))
    ensures RoadFrom(ending, plan, gate, world, idx, start) <==> Road(ending, plan, gate, world, idx + 1, won + 1)
  {
    var spec, limit := plan.steps[idx].spec, Allowance(plan.maxRetries);
    var near: nat :| near < start + limit && WinsAt(world, spec, start, near);
    WinsOnce(world, spec, start, near, won);
    if RoadFrom(ending, plan, gate, world, idx, start) {
      var at: nat :| at < start + limit && WinsAt(world, spec, start, at)
        && Road(ending, plan, gate, world, idx + 1, at + 1);
      WinsOnce(world, spec, start, at, won);
    }
  }

  lemma NoRoad(ending: Ending, plan: Sequence, gate: Gate, world: World, idx: nat, start: nat)
    requires idx < |plan.steps|
    requires !WinsWithin(world, plan.steps[idx].spec, start, Allowance(plan.maxRetries))
    ensures !RoadFrom(ending, plan, gate, world, idx, start)
  {
  }

  /** The stage reports the ending; a cancel inside a step is reported as that step's failure. */
  predicate EndedAs(stage: Stage, ending: Ending) {
    match ending
    case AllDone => stage.Ran? && SequenceSpec.Conclude(stage.p).status == Success
    case CancelSeen => stage.Ran? && stage.p.status == CancelledRun
    case Refused => stage.Ran? && stage.p.status == PermissionDenied
    case CancelMidStep => stage.Ran? ==> stage.p.status in {PartialFailure, Failed} && stage.p.failedIndex.Some?
  }

  /** The loop head of a run that has had no failure yet. */
  predicate Clean(p: Progress, idx: nat, plan: Sequence) {
    && |p.steps| == |plan.steps| && p.status == Success && p.completed == idx <= |p.steps| && plan.stopOnFailure
    && forall j :: 0 <= j < |p.steps| ==> SamePlan(p.steps[j], plan.steps[j])
  }

  /** The step at `idx` failed and the run stops, unless a deadline struck. */
  predicate FailedHere(m: Move, idx: nat) {
    m.Halt? && (m.stage.Ran? ==> m.stage.p.status == Partial(idx) && m.stage.p.failedIndex == Some(idx))
  }

  lemma FailedTurn(p: Progress, idx: nat, plan: Sequence, end: AttemptEnd, world: World)
    requires Clean(p, idx, plan) && idx < |p.steps| && !end.Achieved?
    ensures FailedHere(AfterAttempts(p, idx, plan, end, world), idx)
  {
    if end.GaveUp? {
      var failed := Fail(Acted(p, end.effects, end.tick), idx, end.step, end.error);
      CompensateKeepsRest(failed, idx, world);
    }
  }

  lemma WonTurn(p: Progress, idx: nat, plan: Sequence, end: AttemptEnd, world: World)
    requires Clean(p, idx, plan) && idx < |p.steps| && end.Achieved? && SamePlan(end.step, p.steps[idx])
    ensures var m := AfterAttempts(p, idx, plan, end, world);
            m.Proceed? && Clean(m.p, idx + 1, plan) && m.p.tick == end.tick
  {}

  /** What a turn from a clean loop head leads to. */
  ghost predicate Told(m: Move, p: Progress, idx: nat, plan: Sequence, gate: Gate, world: World)
    requires idx < |plan.steps|
  {
    var spec := plan.steps[idx].spec;
    && (m.Proceed? <==> LetIn(spec, gate, world(p.tick))
                        && WinsWithin(world, spec, p.tick + 1, Allowance(plan.maxRetries)))
    && (m.Proceed? ==> Clean(m.p, idx + 1, plan) && m.p.tick > p.tick && WinsAt(world, spec, p.tick + 1, m.p.tick - 1))
    && (m.Halt? && LetIn(spec, gate, world(p.tick)) ==> FailedHere(m, idx))
    && (world(p.tick).cancel ==> m.Halt? && EndedAs(m.stage, CancelSeen))
    && (!world(p.tick).cancel && !LetIn(spec, gate, world(p.tick)) ==> m.Halt? && EndedAs(m.stage, Refused))
  }

  lemma AttemptedOutcome(p: Progress, idx: nat, plan: Sequence, end: AttemptEnd, gate: Gate, world: World)
    requires Clean(p, idx, plan) && idx < |p.steps| && LetIn(plan.steps[idx].spec, gate, world(p.tick))
    requires var spec := plan.steps[idx].spec;
      && SamePlan(end.step, p.steps[idx])
      && WonBy(end, world, spec, p.tick + 1, Allowance(plan.maxRetries))
    ensures Told(AfterAttempts(p, idx, plan, end, world), p, idx, plan, gate, world)
  {
    if end.Achieved? {
      WonTurn(p, idx, plan, end, world);
    } else {
      FailedTurn(p, idx, plan, end, world);
    }
  }

  lemma KeptOutOutcome(p: Progress, idx: nat, plan: Sequence, gate: Gate, world: World)
    requires Clean(p, idx, plan) && idx < |p.steps| && !LetIn(plan.steps[idx].spec, gate, world(p.tick))
    ensures Told(Turn(p, idx, plan, gate, world), p, idx, plan, gate, world)
  {
    assert p.steps[idx].spec == plan.steps[idx].spec;
  }

  lemma AttemptsAtOutcome(p: Progress, idx: nat, plan: Sequence, world: World)
    requires idx < |p.steps|
    ensures var end := AttemptsAt(p, idx, plan, world);
            && SamePlan(end.step, p.steps[idx])
            && WonBy(end, world, p.steps[idx].spec, p.tick + 1, Allowance(plan.maxRetries))
  {
    var begun, limit := p.steps[idx].(status := Executing), Allowance(plan.maxRetries);
    WinsExactly(idx, begun, 0, limit, None, world, p.effects, p.tick + 1);
    AttemptsKeepPlan(idx, begun, 0, limit, None, world, p.effects, p.tick + 1);
  }

  lemma LetInOutcome(p: Progress, idx: nat, plan: Sequence, gate: Gate, world: World)
    requires Clean(p, idx, plan) && idx < |p.steps| && LetIn(plan.steps[idx].spec, gate, world(p.tick))
    ensures Told(Tackle(p, idx, plan, world), p, idx, plan, gate, world)
  {
    assert SamePlan(p.steps[idx], plan.steps[idx]);
    AttemptsAtOutcome(p, idx, plan, world);
    AttemptedOutcome(p, idx, plan, AttemptsAt(p, idx, plan, world), gate, world);
  }

  lemma TurnOutcome(p: Progress, idx: nat, plan: Sequence, gate: Gate, world: World)
    requires Clean(p, idx, plan) && idx < |p.steps|
    ensures Told(Turn(p, idx, plan, gate, world), p, idx, plan, gate, world)
  {
    assert SamePlan(p.steps[idx], plan.steps[idx]);
    if LetIn(plan.steps[idx].spec, gate, world(p.tick)) {
      LetInOutcome(p, idx, plan, gate, world);
    } else {
      KeptOutOutcome(p, idx, plan, gate, world);
    }
  }

  lemma RoadGoesOn(ending: Ending, m: Move, p: Progress, idx: nat, plan: Sequence, gate: Gate, world: World)
    requires idx < |plan.steps| && Told(m, p, idx, plan, gate, world) && m.Proceed?
    ensures Road(ending, plan, gate, world, idx, p.tick) <==> Road(ending, plan, gate, world, idx + 1, m.p.tick)
  {
    var spec, limit := plan.steps[idx].spec, Allowance(plan.maxRetries);
    RoadAfterWin(ending, plan, gate, world, idx, p.tick + 1, m.p.tick - 1);
    if CancelsWithin(world, spec, p.tick + 1, limit) {
      CancelledIsNotWon(world, spec, p.tick + 1, limit);
    }
  }

  lemma RoadEnds(ending: Ending, m: Move, p: Progress, idx: nat, plan: Sequence, gate: Gate, world: World)
    requires idx < |plan.steps| && Told(m, p, idx, plan, gate, world) && m.Halt?
    ensures Road(ending, plan, gate, world, idx, p.tick) <==> EndsHere(ending, plan, gate, world, idx, p.tick)
  {
    if LetIn(plan.steps[idx].spec, gate, world(p.tick)) {
      NoRoad(ending, plan, gate, world, idx, p.tick + 1);
    }
  }

  lemma HaltedAs(ending: Ending, m: Move, p: Progress, idx: nat, plan: Sequence, gate: Gate, world: World)
    requires idx < |plan.steps| && Told(m, p, idx, plan, gate, world) && m.Halt?
    ensures EndsHere(ending, plan, gate, world, idx, p.tick) ==> EndedAs(m.stage, ending)
    ensures ending != CancelMidStep && EndedAs(m.stage, ending) ==> EndsHere(ending, plan, gate, world, idx, p.tick)
  {}

  lemma {:induction false} LoopOutcome(ending: Ending, p: Progress, idx: nat, plan: Sequence, gate: Gate, world: World)
    requires Clean(p, idx, plan)
    ensures Road(ending, plan, gate, world, idx, p.tick) ==> EndedAs(StepLoop(p, idx, plan, gate, world), ending)
    ensures ending != CancelMidStep && EndedAs(StepLoop(p, idx, plan, gate, world), ending) ==>
              Road(ending, plan, gate, world, idx, p.tick)
    decreases |p.steps| - idx
  {
    if idx == |p.steps| {
      assert StepLoop(p, idx, plan, gate, world) == Ran(p);
    } else {
      TurnOutcome(p, idx, plan, gate, world);
      StepLoopUnfolds(p, idx, plan, gate, world);
      var m := Turn(p, idx, plan, gate, world);
      if m.Proceed? {
        RoadGoesOn(ending, m, p, idx, plan, gate, world);
        LoopOutcome(ending, m.p, idx + 1, plan, gate, world);
      } else {
        RoadEnds(ending, m, p, idx, plan, gate, world);
        HaltedAs(ending, m, p, idx, plan, gate, world);
      }
    }
  }

  /** A sequence that stops on failure succeeds exactly when, step after step, nothing is
      cancelled, the gate lets the step in, and one of its attempts completes it after nothing
      but wasted ones, every deadline holding off meanwhile. */
  lemma SequenceSucceedsExactly(plan: Sequence, gate: Gate, world: World, tick: nat)
    requires plan.stopOnFailure
    ensures var out := Execute(plan, gate, world, tick);
            out.Returned? && out.result.status == Success <==> Road(AllDone, plan, gate, world, 0, tick)
  {
    LoopOutcome(AllDone, Start(plan, tick), 0, plan, gate, world);
  }

  /** It reports itself cancelled exactly when the cancel event is first seen between two steps,
      and denied exactly when the gate keeps a step out. */
  lemma SequenceCancelledExactly(plan: Sequence, gate: Gate, world: World, tick: nat)
    requires plan.stopOnFailure
    ensures var out := Execute(plan, gate, world, tick);
            && (out.Returned? && out.result.status == CancelledRun <==> Road(CancelSeen, plan, gate, world, 0, tick))
            && (out.Returned? && out.result.status == PermissionDenied <==> Road(Refused, plan, gate, world, 0, tick))
  {
    LoopOutcome(CancelSeen, Start(plan, tick), 0, plan, gate, world);
    LoopOutcome(Refused, Start(plan, tick), 0, plan, gate, world);
  }

  /** A cancel event first seen inside a step's attempts, whichever attempt it is, is reported as
      that step's failure, or as a timeout when a deadline strikes during compensation; never as a
      cancellation. */
  lemma CancelMidStepFails(plan: Sequence, gate: Gate, world: World, tick: nat)
    requires plan.stopOnFailure && Road(CancelMidStep, plan, gate, world, 0, tick)
    ensures var out := Execute(plan, gate, world, tick);
            out.Returned? ==> out.result.status in {PartialFailure, Failed, Timeout}
  {
    LoopOutcome(CancelMidStep, Start(plan, tick), 0, plan, gate, world);
  }

  /** At the step itself: the run stops there, failed at that step. */
  lemma CancelledStepFails(p: Progress, idx: nat, plan: Sequence, gate: Gate, world: World)
    requires Clean(p, idx, plan) && idx < |p.steps| && EndsHere(CancelMidStep, plan, gate, world, idx, p.tick)
    ensures FailedHere(Turn(p, idx, plan, gate, world), idx)
  {
    TurnOutcome(p, idx, plan, gate, world);
    CancelledIsNotWon(world, plan.steps[idx].spec, p.tick + 1, Allowance(plan.maxRetries));
  }
}
