/** What the environment's answers make of the attempts at one step, told with the constants and
    conditions written out. */
module Fates {
  import opened Domain
  import opened SequenceSpec
  import Recovery

  /** One attempt, and one more for each retry. */
  function Allowance(maxRetries: int): nat { if maxRetries >= 1 then 1 + maxRetries else 1 }

  /** How the attempts at a step end, with the tick of the last answer they read. */
  datatype Fate = WonBy(at: nat) | LostAt(at: nat) | StruckIn(at: nat, strike: Strike)

  /** The answer succeeds: its verdict is TRUE or, where none is required, it was accepted and successful. */
  predicate Succeeds(o: Obs, required: bool) {
    || (o.verdict.Some? && o.verdict.value.verified == TRUE)
    || (!required && o.accepted && o.success)
  }

  /** Its verdict names a failure that no further attempt can repair. */
  predicate Hopeless(o: Obs) {
    && o.verdict.Some?
    && (o.verdict.value.failure == Some(CaptchaDetected) || o.verdict.value.failure == Some(ExecutionFailed))
  }

  /** What the answer at `at` decides; None if it earns another attempt, `more` telling that one is left. */
  function Decided(o: Obs, required: bool, more: bool, at: nat): Option<Fate> {
    if o.cancel then Some(LostAt(at))
    else if o.strike != NoStrike then Some(StruckIn(at, o.strike))
    else if o.accepted && o.settleStrike != NoStrike then Some(StruckIn(at, o.settleStrike))
    else if Succeeds(o, required) then Some(WonBy(at))
    else if !more || Hopeless(o) then Some(LostAt(at))
    else if o.pauseStrike != NoStrike then Some(StruckIn(at, o.pauseStrike))
    else None
  }

  /** The attempts from `start` on, `left` of them. */
  function FateFrom(world: World, required: bool, start: nat, left: nat): (fate: Fate)
    requires left > 0
    ensures start <= fate.at < start + left
    decreases left
  {
    var now := Decided(world(start), required, left > 1, start);
    if now.Some? then now.value else FateFrom(world, required, start + 1, left - 1)
  }

  /** What an answer leaves on its step. */
  datatype Marks = Marks(accepted: bool, verdict: Option<Verdict>, error: Option<ErrorCode>)

  function MarksOf(o: Obs): Marks { Marks(o.accepted, o.verdict, o.error) }

  /** The marks in front of the answer at `at`, the first one being read at `start`. */
  function Prior(world: World, start: nat, at: nat, first: Marks): Marks
    requires start <= at
  {
    if at == start then first else MarksOf(world(at - 1))
  }

  /** The marks a lost step keeps: a cancelled attempt leaves none of its own. */
  function LostMarks(world: World, start: nat, at: nat, first: Marks): Marks
    requires start <= at
  {
    if world(at).cancel then Prior(world, start, at, first) else MarksOf(world(at))
  }

  /** Those a deadline leaves, by where in the attempt it strikes. */
  function StruckMarks(world: World, start: nat, at: nat, first: Marks): Marks
    requires start <= at
  {
    var o, before := world(at), Prior(world, start, at, first);
    if o.strike != NoStrike then before
    else if o.accepted && o.settleStrike != NoStrike then before.(accepted := true)
    else MarksOf(o)
  }

  predicate Bears(s: Step, marks: Marks) { s.accepted == marks.accepted && s.verdict == marks.verdict }

  /** A step that the answer `o` won. */
  predicate WonWith(s: Step, o: Obs) {
    && s.accepted == o.accepted
    && if o.verdict.Some? && o.verdict.value.verified == TRUE
       then s.status == VerifiedSuccess && s.verdict == o.verdict
       else s.status == ActuationAccepted && s.verdict == Some(Verdict(UNKNOWN, None))
  }

  /** What the attempts leave alone. */
  predicate Untouched(s: Step, was: Step) {
    s.id == was.id && s.index == was.index && s.spec == was.spec && s.undo == was.undo && s.error == was.error
  }

  ghost predicate EndsAs(end: AttemptEnd, was: Step, fate: Fate, world: World, start: nat, first: Marks)
    requires start <= fate.at
  {
    && end.tick == fate.at + 1 && Untouched(end.step, was)
    && match fate
       case WonBy(at) => end.Achieved? && WonWith(end.step, world(at))
       case LostAt(at) =>
         && end.GaveUp? && Bears(end.step, LostMarks(world, start, at, first))
         && end.error == LostMarks(world, start, at, first).error
       case StruckIn(at, strike) =>
         && end.Struck? && end.strike == strike && Bears(end.step, StruckMarks(world, start, at, first))
         && end.step.status in {Executing, Recovering}
  }

  /** What a try owes to the answer it read. */
  ghost predicate AnsweredAs(t: Try, step: Step, more: bool, last: Option<ErrorCode>, world: World, tick: nat) {
    var o := world(tick);
    var now := Decided(o, step.spec.requiresVerification, more, tick);
    match t
    case Again(next, error, _, later) =>
      && now.None? && later == tick + 1 && error == o.error && Bears(next, MarksOf(o))
      && Untouched(next, step) && next.status == Recovering
    case Over(end) =>
      && now.Some? && now.value.at == tick
      && EndsAs(end, step, now.value, world, tick, Marks(step.accepted, step.verdict, last))
  }

  /** Once the answer is judged. */
  lemma JudgedAttempt(step: Step, more: bool, last: Option<ErrorCode>, world: World, effects: seq<Effect>, tick: nat)
    requires var o := world(tick); !o.cancel && o.strike == NoStrike && !(o.accepted && o.settleStrike != NoStrike)
    ensures var o := world(tick);
            AnsweredAs(Judge(step.(accepted := o.accepted, verdict := o.verdict), o, more, effects, tick + 1),
                       step, more, last, world, tick)
  {
    Recovery.AttemptGivesUp(world(tick).verdict, world(tick).accepted);
  }

  lemma OneAttempt(position: nat, step: Step, more: bool, last: Option<ErrorCode>, world: World,
                   effects: seq<Effect>, tick: nat)
    requires step.status in {Executing, Recovering}
    ensures AnsweredAs(Attempt(position, step, more, last, world, effects, tick), step, more, last, world, tick)
  {
    var o := world(tick);
    if !o.cancel && o.strike == NoStrike && !(o.accepted && o.settleStrike != NoStrike) {
      JudgedAttempt(step, more, last, world, effects + [Forward(position, step.id, tick)], tick);
    }
  }

  lemma {:induction false} AttemptsEnd(position: nat, step: Step, attempt: nat, limit: nat, last: Option<ErrorCode>,
                                       world: World, effects: seq<Effect>, tick: nat)
    requires attempt < limit && step.status in {Executing, Recovering}
    ensures EndsAs(Attempts(position, step, attempt, limit, last, world, effects, tick), step,
                   FateFrom(world, step.spec.requiresVerification, tick, limit - attempt), world, tick,
                   Marks(step.accepted, step.verdict, last))
    decreases limit - attempt
  {
    AttemptsUnfold(position, step, attempt, limit, last, world, effects, tick);
    OneAttempt(position, step, attempt + 1 < limit, last, world, effects, tick);
    var t := Attempt(position, step, attempt + 1 < limit, last, world, effects, tick);
    if t.Again? {
      AttemptsEnd(position, t.step, attempt + 1, limit, t.error, world, t.effects, t.tick);
    }
  }

  /** How the attempts at step `idx` end when its turn begins at `tick`. */
  function TurnFate(plan: Sequence, world: World, idx: nat, tick: nat): (fate: Fate)
    requires idx < |plan.steps|
    ensures tick < fate.at
  {
    FateFrom(world, plan.steps[idx].spec.requiresVerification, tick + 1, Allowance(plan.maxRetries))
  }

  lemma LimitIsAllowance(maxRetries: int)
    ensures AttemptLimit(maxRetries) == Allowance(maxRetries)
  {}

  /** Whom the gate lets in. */
  lemma ClearExactly(spec: StepSpec, o: Obs)
    ensures Clear(spec) <==> (Gated(spec) ==> Allowed(spec, NoEvaluator, o))
    ensures (Gated(spec) ==> Allowed(spec, Evaluator, o)) <==>
              (!spec.consequential && spec.requiredPermission == None) || o.authorized
  {}

  /** How the attempts of a turn end, and when. */
  predicate EndsLike(end: AttemptEnd, fate: Fate) {
    && end.tick == fate.at + 1
    && match fate
       case WonBy(_) => end.Achieved?
       case LostAt(_) => end.GaveUp?
       case StruckIn(_, strike) => end.Struck? && end.strike == strike
  }

  lemma TurnDecides(p: Progress, idx: nat, plan: Sequence, world: World)
    requires idx < |plan.steps| && idx < |p.steps| && p.steps[idx].spec == plan.steps[idx].spec
    ensures EndsLike(AttemptsAt(p, idx, plan, world), TurnFate(plan, world, idx, p.tick))
  {
    LimitIsAllowance(plan.maxRetries);
    AttemptsEnd(idx, p.steps[idx].(status := Executing), 0, AttemptLimit(plan.maxRetries), None, world, p.effects,
                p.tick + 1);
  }
}
