/** The report of a sequence run, field by field, told from the plan and the environment's answers
    alone: which attempts are made, how the run ends, and what it leaves of every step. */
module RunReports {
  import opened Domain
  import opened SequenceSpec
  import opened SequenceFacts
  import opened Fates
  import opened UndoOutcome
  import opened WonSteps

  // ---- compensations

  /** What a compensation's own answer leaves on record. */
  function RecordOf(o: Obs): UndoRecord {
    UndoRecord(true, if o.verdict.Some? then o.verdict.value.verified else if o.success then TRUE else FALSE)
  }

  /** The first strike among the answers from `since` up to, not including, `until`. */
  function FirstStrike(world: World, since: nat, until: nat): Strike
    decreases until - since
  {
    if since >= until then NoStrike
    else if world(since).strike != NoStrike then world(since).strike
    else FirstStrike(world, since + 1, until)
  }

  /** What becomes of the record of step `j`. */
  function RecordAfter(before: UndoRecord, steps: seq<Step>, world: World, f: Failure, j: nat): UndoRecord
    requires f.at <= |steps|
  {
    if CallRecorded(steps, world, f, j) then RecordOf(world(CallTick(steps, f, j))) else before
  }

  ghost predicate CompensatesAs(stage: Stage, p: Progress, world: World, until: nat) {
    && |stage.p.steps| == |p.steps|
    && match FirstStrike(world, p.tick, until)
       case NoStrike => stage.Ran? && stage.p.tick == until
       case strike => stage == Hit(strike, stage.p)
  }

  /** How the compensation of the steps before `count` ends. */
  lemma {:induction false} CompensationEnds(p: Progress, count: nat, world: World, steps: seq<Step>, f: Failure)
    requires Uncalled(p, count, steps, world, f)
    ensures CompensatesAs(Compensate(p, count, world), p, world, p.tick + CallsBetween(steps, 0, count))
    decreases count
  {
    if count > 0 {
      var k := count - 1;
      CallsSplit(steps, 0, k, count);
      CompensateUnfolds(p, count, world);
      UncalledNext(p, k, world, steps, f);
      assert SamePlan(p.steps[k], steps[k]);
      if !Undoable(p.steps[k]) {
        CompensationEnds(p, k, world, steps, f);
      } else if world(p.tick).strike == NoStrike {
        CompensationEnds(Recorded(p, k, world(p.tick)), k, world, steps, f);
      }
    }
  }

  lemma {:induction false} CallsSplit(steps: seq<Step>, low: nat, mid: nat, high: nat)
    requires low <= mid <= high <= |steps|
    ensures CallsBetween(steps, low, high) == CallsBetween(steps, low, mid) + CallsBetween(steps, mid, high)
    decreases mid - low
  {
    if low < mid {
      CallsSplit(steps, low + 1, mid, high);
    }
  }

  lemma {:induction false} CompensateKeepsBehind(p: Progress, count: nat, world: World, j: nat)
    requires count <= j < |p.steps|
    ensures var after := Compensate(p, count, world).p.steps;
            |after| == |p.steps| && after[j] == p.steps[j]
    decreases count
  {
    if count > 0 {
      CompensateUnfolds(p, count, world);
      if Undoable(p.steps[count - 1]) {
        CompensateKeepsBehind(Recorded(p, count - 1, world(p.tick)), count - 1, world, j);
      } else {
        CompensateKeepsBehind(p, count - 1, world, j);
      }
    }
  }

  /** The call for step `k` itself, and the loop behind it. */
  lemma TopRecord(p: Progress, k: nat, world: World, steps: seq<Step>, f: Failure)
    requires Uncalled(p, k + 1, steps, world, f)
    ensures var after := Compensate(p, k + 1, world).p.steps;
            |after| == |p.steps| && after[k].undo == RecordAfter(p.steps[k].undo, steps, world, f, k)
  {
    CompensateUnfolds(p, k + 1, world);
    assert SamePlan(p.steps[k], steps[k]);
    if !Undoable(p.steps[k]) {
      CompensateKeepsBehind(p, k, world, k);
    } else if world(p.tick).strike == NoStrike {
      CompensateKeepsBehind(Recorded(p, k, world(p.tick)), k, world, k);
    }
  }

  lemma {:induction false} CompensateRecords(p: Progress, count: nat, world: World, steps: seq<Step>, f: Failure,
                                             j: nat)
    requires Uncalled(p, count, steps, world, f) && j < count
    ensures var after := Compensate(p, count, world).p.steps;
            |after| == |p.steps| && after[j].undo == RecordAfter(p.steps[j].undo, steps, world, f, j)
    decreases count
  {
    var k := count - 1;
    if j == k {
      TopRecord(p, k, world, steps, f);
    } else {
      CompensateUnfolds(p, count, world);
      UncalledNext(p, k, world, steps, f);
      assert SamePlan(p.steps[k], steps[k]);
      if !Undoable(p.steps[k]) {
        CompensateRecords(p, k, world, steps, f, j);
      } else if world(p.tick).strike != NoStrike {
        NothingFurther(p, k, world, steps, f, j);
      } else {
        CompensateRecords(Recorded(p, k, world(p.tick)), k, world, steps, f, j);
      }
    }
  }

  // ---- a whole run

  /** How a run ends, with the step whose turn it is and the tick at which that turn's attempts start. */
  datatype RunEnd =
    | AllWon(tick: nat)
    | CancelSeen(at: nat)
    | KeptOut(at: nat)
    | StepLost(at: nat, start: nat, last: nat)
    | StepStruck(at: nat, start: nat, last: nat, strike: Strike)

  /** How a run ends that is about to begin the turn of step `idx` at `tick`: step after step is let in
      and won until one is not. */
  function EndFrom(plan: Sequence, world: World, idx: nat, tick: nat): RunEnd
    requires idx <= |plan.steps|
    decreases |plan.steps| - idx
  {
    if idx == |plan.steps| then AllWon(tick)
    else if world(tick).cancel then CancelSeen(idx)
    else if !Clear(plan.steps[idx].spec) then KeptOut(idx)
    else
      match TurnFate(plan, world, idx, tick)
      case WonBy(at) => EndFrom(plan, world, idx + 1, at + 1)
      case LostAt(at) => StepLost(idx, tick + 1, at)
      case StruckIn(at, strike) => StepStruck(idx, tick + 1, at, strike)
  }

  /** The step that the execution copies from the plan. */
  function Copied(was: Step, j: nat): Step { was.(index := j, status := Pending) }

  /** Step `j` of a plan, won by the answer `o`, its compensation aside. */
  predicate KeptWon(s: Step, was: Step, j: nat, o: Obs) {
    s.id == was.id && s.index == j && s.spec == was.spec && s.error == was.error && WonWith(s, o)
  }

  /** The loop head of a run that has won all steps before `idx`. */
  ghost predicate AtHead(p: Progress, idx: nat, plan: Sequence) {
    && |p.steps| == |plan.steps| && idx <= |p.steps| && plan.stopOnFailure
    && p.status == Success && p.failedIndex == None && p.error == None && p.completed == idx
    && (forall j :: idx <= j < |p.steps| ==> p.steps[j] == Copied(plan.steps[j], j))
    && (forall j :: 0 <= j < idx ==> Done(p.steps[j]))
    && (forall j :: 0 <= j < |p.steps| ==> p.steps[j].undo == plan.steps[j].undo && SamePlan(p.steps[j], plan.steps[j]))
  }

  /** The attempts at the step whose turn it is. */
  lemma TurnEnds(p: Progress, idx: nat, plan: Sequence, world: World)
    requires AtHead(p, idx, plan) && idx < |p.steps|
    ensures var was := Copied(plan.steps[idx], idx);
            EndsAs(AttemptsAt(p, idx, plan, world), was.(status := Executing), TurnFate(plan, world, idx, p.tick),
                   world, p.tick + 1, Marks(was.accepted, was.verdict, None))
  {
    LimitIsAllowance(plan.maxRetries);
    AttemptsEnd(idx, p.steps[idx].(status := Executing), 0, AttemptLimit(plan.maxRetries), None, world, p.effects,
                p.tick + 1);
  }

  /** The loop head behind a won step. */
  ghost predicate WonOver(next: Progress, p: Progress, idx: nat, plan: Sequence, world: World)
    requires idx < |plan.steps| == |p.steps|
  {
    var at := TurnFate(plan, world, idx, p.tick).at;
    && AtHead(next, idx + 1, plan) && next.tick == at + 1
    && KeptWon(next.steps[idx], plan.steps[idx], idx, world(at))
    && forall j :: 0 <= j < idx ==> next.steps[j] == p.steps[j]
  }

  predicate WinsTurn(p: Progress, idx: nat, plan: Sequence, world: World)
    requires idx < |plan.steps|
  {
    !world(p.tick).cancel && Clear(plan.steps[idx].spec) && TurnFate(plan, world, idx, p.tick).WonBy?
  }

  lemma WonTurn(p: Progress, idx: nat, plan: Sequence, world: World)
    requires AtHead(p, idx, plan) && idx < |p.steps| && WinsTurn(p, idx, plan, world)
    ensures var m := Turn(p, idx, plan, NoEvaluator, world);
            m.Proceed? && WonOver(m.p, p, idx, plan, world)
  {
    ClearExactly(plan.steps[idx].spec, world(p.tick));
    TurnEnds(p, idx, plan, world);
  }

  /** The run wins its steps up to `at` and begins the turn there, or has none left. */
  ghost predicate Arrives(q: Progress, at: nat, p: Progress, idx: nat, plan: Sequence, world: World)
    requires idx <= |plan.steps| == |p.steps|
  {
    && AtHead(q, at, plan) && idx <= at
    && EndFrom(plan, world, idx, p.tick) == EndFrom(plan, world, at, q.tick)
    && (at < |plan.steps| ==> !WinsTurn(q, at, plan, world))
    && forall j :: 0 <= j < at ==>
         if j < idx then q.steps[j] == p.steps[j]
         else
           var won := WonFrom(plan, world, idx, p.tick, j);
           won.Some? && KeptWon(q.steps[j], plan.steps[j], j, world(won.value))
  }

  lemma ArrivesEarlier(q: Progress, at: nat, next: Progress, p: Progress, idx: nat, plan: Sequence, world: World)
    requires idx < |plan.steps| == |p.steps| == |next.steps| && Arrives(q, at, next, idx + 1, plan, world)
    requires WinsTurn(p, idx, plan, world) && WonOver(next, p, idx, plan, world)
    ensures Arrives(q, at, p, idx, plan, world)
  {
    assert q.steps[idx] == next.steps[idx];
  }

  ghost predicate SameLoop(p: Progress, idx: nat, q: Progress, at: nat, plan: Sequence, world: World) {
    && idx <= |p.steps| && at <= |q.steps|
    && StepLoop(p, idx, plan, NoEvaluator, world) == StepLoop(q, at, plan, NoEvaluator, world)
  }

  lemma LoopGoesOn(p: Progress, idx: nat, next: Progress, q: Progress, at: nat, plan: Sequence, world: World)
    requires SameLoop(p, idx, next, idx + 1, plan, world) && SameLoop(next, idx + 1, q, at, plan, world)
    ensures SameLoop(p, idx, q, at, plan, world)
  {}

  lemma WonGoesOn(p: Progress, idx: nat, plan: Sequence, world: World) returns (next: Progress)
    requires AtHead(p, idx, plan) && idx < |p.steps| && WinsTurn(p, idx, plan, world)
    ensures |next.steps| == |p.steps| && WonOver(next, p, idx, plan, world) && AtHead(next, idx + 1, plan)
    ensures SameLoop(p, idx, next, idx + 1, plan, world)
  {
    WonTurn(p, idx, plan, world);
    StepLoopUnfolds(p, idx, plan, NoEvaluator, world);
    next := Turn(p, idx, plan, NoEvaluator, world).p;
  }

  lemma ArrivesHere(p: Progress, idx: nat, plan: Sequence, world: World)
    requires AtHead(p, idx, plan) && (idx < |plan.steps| ==> !WinsTurn(p, idx, plan, world))
    ensures Arrives(p, idx, p, idx, plan, world) && SameLoop(p, idx, p, idx, plan, world)
  {}

  lemma {:induction false} RunArrives(p: Progress, idx: nat, plan: Sequence, world: World)
    returns (q: Progress, at: nat)
    requires AtHead(p, idx, plan)
    ensures Arrives(q, at, p, idx, plan, world) && SameLoop(p, idx, q, at, plan, world)
    decreases |plan.steps| - idx
  {
    if idx < |plan.steps| && WinsTurn(p, idx, plan, world) {
      var next := WonGoesOn(p, idx, plan, world);
      q, at := RunArrives(next, idx + 1, plan, world);
      ArrivesEarlier(q, at, next, p, idx, plan, world);
      LoopGoesOn(p, idx, next, q, at, plan, world);
    } else {
      q, at := p, idx;
      ArrivesHere(p, idx, plan, world);
    }
  }

  // ---- the report

  /** The code a failed step ends with: the tool's, or one that tells whether the actuation was accepted. */
  function CodeOf(marks: Marks): ErrorCode {
    if marks.error.Some? then marks.error.value
    else if marks.accepted then VerificationError else ActuationError
  }

  /** The marks with which a step's attempts start. */
  function FirstMarks(was: Step): Marks { Marks(was.accepted, was.verdict, None) }

  /** A step that was lost for good. */
  predicate KeptLost(s: Step, was: Step, j: nat, marks: Marks) {
    && s.id == was.id && s.index == j && s.spec == was.spec && s.undo == was.undo && Bears(s, marks)
    && s.status == StepFailed && s.error == Some(CodeOf(marks))
  }

  function ErrorOr(before: Option<ErrorCode>, code: ErrorCode): Option<ErrorCode> {
    if before.None? then Some(code) else before
  }

  /** Step `j` of the plan was won by an answer, and kept as that answer tells. */
  predicate WonByAnswer(s: Step, plan: Sequence, world: World, tick: nat, j: nat)
    requires j < |plan.steps|
  {
    var won := WonAt(plan, world, tick, j);
    won.Some? && KeptWon(s, plan.steps[j], j, world(won.value))
  }

  /** The steps before `at` were won, and nothing was compensated. */
  predicate WonBefore(steps: seq<Step>, plan: Sequence, world: World, tick: nat, at: nat)
    requires at <= |steps| == |plan.steps|
  {
    forall j :: 0 <= j < at ==>
      && WonByAnswer(steps[j], plan, world, tick, j)
      && steps[j].undo == plan.steps[j].undo
  }

  /** The steps before the one that was lost, with the records of their compensations. */
  predicate CompensatedBefore(steps: seq<Step>, plan: Sequence, world: World, tick: nat, f: Failure)
    requires f.at <= |steps| == |plan.steps|
  {
    forall j :: 0 <= j < f.at ==>
      && WonByAnswer(steps[j], plan, world, tick, j)
      && steps[j].undo == if plan.allowCompensation then RecordAfter(plan.steps[j].undo, plan.steps, world, f, j)
                          else plan.steps[j].undo
  }

  /** The steps behind `at` were not begun. */
  predicate LeftBehind(steps: seq<Step>, plan: Sequence, at: nat, status: StepStatus)
    requires |steps| == |plan.steps|
  {
    forall j :: at < j < |steps| ==> steps[j] == Copied(plan.steps[j], j).(status := status)
  }

  /** The run's own deadline leaves them skipped, with its code unless they bear another. */
  predicate ExpiredBehind(steps: seq<Step>, plan: Sequence, at: nat)
    requires |steps| == |plan.steps|
  {
    forall j :: at < j < |steps| ==>
      steps[j] == Copied(plan.steps[j], j).(status := Skipped, error := ErrorOr(plan.steps[j].error, TimeoutError))
  }

  /** The strike that ends the compensations behind the failure, if one does. */
  function UndoStrike(plan: Sequence, world: World, f: Failure): Strike
    requires f.at <= |plan.steps|
  {
    if plan.allowCompensation then FirstStrike(world, f.since, f.since + CallsBetween(plan.steps, 0, f.at))
    else NoStrike
  }

  /** The report of a run in which the step at `at` was lost with these marks. */
  ghost predicate LossReported(out: Outcome, plan: Sequence, world: World, tick: nat, f: Failure, marks: Marks)
    requires f.at < |plan.steps|
  {
    var strike := UndoStrike(plan, world, f);
    if strike == OuterDeadline then out.Raised?
    else
      && out.Returned?
      && var r := out.result;
         && |r.steps| == |plan.steps| && r.failedIndex == Some(f.at)
         && CompensatedBefore(r.steps, plan, world, tick, f) && KeptLost(r.steps[f.at], plan.steps[f.at], f.at, marks)
         && if strike == NoStrike
            then r.status == (if f.at > 0 then PartialFailure else Failed) && r.error == Some(CodeOf(marks))
                 && LeftBehind(r.steps, plan, f.at, Skipped)
            else r.status == Timeout && r.error == Some(TimeoutError) && ExpiredBehind(r.steps, plan, f.at)
  }

  /** The report of a run that a deadline ends inside the attempts at the step at `at`. */
  ghost predicate StrikeReported(out: Outcome, plan: Sequence, world: World, tick: nat, at: nat, strike: Strike,
                                 marks: Marks)
    requires at < |plan.steps|
  {
    if strike != SequenceDeadline then out.Raised?
    else
      && out.Returned?
      && var r := out.result;
         && |r.steps| == |plan.steps| && r.status == Timeout && r.error == Some(TimeoutError) && r.failedIndex == None
         && WonBefore(r.steps, plan, world, tick, at) && ExpiredBehind(r.steps, plan, at)
         && var s, was := r.steps[at], plan.steps[at];
            && s.id == was.id && s.index == at && s.spec == was.spec && s.undo == was.undo && Bears(s, marks)
            && s.status == StepFailed && s.error == ErrorOr(was.error, TimeoutError)
  }

  /** What a run that ends so reports. */
  ghost predicate Reports(out: Outcome, end: RunEnd, plan: Sequence, world: World, tick: nat) {
    match end
    case AllWon(last) =>
      && out.Returned? && |out.result.steps| == |plan.steps|
      && out.result.status == Success && out.result.error == None && out.result.failedIndex == None
      && out.result.tick == last && WonBefore(out.result.steps, plan, world, tick, |plan.steps|)
    case CancelSeen(at) =>
      && out.Returned? && at < |out.result.steps| == |plan.steps|
      && out.result.status == CancelledRun && out.result.error == Some(CancelledError) && out.result.failedIndex == None
      && WonBefore(out.result.steps, plan, world, tick, at) && LeftBehind(out.result.steps, plan, at, Cancelled)
      && out.result.steps[at] == Copied(plan.steps[at], at).(status := Cancelled)
    case KeptOut(at) =>
      && out.Returned? && at < |out.result.steps| == |plan.steps|
      && out.result.status == PermissionDenied && out.result.error == Some(PermissionRequiredError)
      && out.result.failedIndex == Some(at)
      && WonBefore(out.result.steps, plan, world, tick, at) && LeftBehind(out.result.steps, plan, at, Skipped)
      && out.result.steps[at]
         == Copied(plan.steps[at], at).(status := StepFailed, error := Some(PermissionRequiredError))
    case StepLost(at, start, last) =>
      && at < |plan.steps| && start <= last
      && LossReported(out, plan, world, tick, Failure(at, last + 1),
                      LostMarks(world, start, last, FirstMarks(plan.steps[at])))
    case StepStruck(at, start, last, strike) =>
      && at < |plan.steps| && start <= last
      && StrikeReported(out, plan, world, tick, at, strike, StruckMarks(world, start, last, FirstMarks(plan.steps[at])))
  }

  // ---- the turn that ends the run

  /** What the loop head at the last turn owes to the run before it. */
  ghost predicate Arrived(q: Progress, at: nat, plan: Sequence, world: World, tick: nat) {
    && AtHead(q, at, plan) && WonBefore(q.steps, plan, world, tick, at)
  }

  lemma AllReported(q: Progress, plan: Sequence, world: World, tick: nat)
    requires Arrived(q, |plan.steps|, plan, world, tick)
    ensures Reports(Finish(Ran(q)), AllWon(q.tick), plan, world, tick)
  {}

  lemma CancelReported(q: Progress, at: nat, plan: Sequence, world: World, tick: nat)
    requires Arrived(q, at, plan, world, tick) && at < |plan.steps| && world(q.tick).cancel
    ensures var m := Turn(q, at, plan, NoEvaluator, world);
            m.Halt? && Reports(Finish(m.stage), CancelSeen(at), plan, world, tick)
  {}

  lemma DenialReported(q: Progress, at: nat, plan: Sequence, world: World, tick: nat)
    requires Arrived(q, at, plan, world, tick) && at < |plan.steps| && !world(q.tick).cancel
    requires !Clear(plan.steps[at].spec)
    ensures var m := Turn(q, at, plan, NoEvaluator, world);
            m.Halt? && Reports(Finish(m.stage), KeptOut(at), plan, world, tick)
  {
    ClearExactly(plan.steps[at].spec, world(q.tick));
  }

  lemma StruckStage(q: Progress, at: nat, plan: Sequence, world: World, last: nat, strike: Strike)
    returns (p: Progress)
    requires AtHead(q, at, plan) && at < |plan.steps| && !world(q.tick).cancel
    requires Clear(plan.steps[at].spec) && TurnFate(plan, world, at, q.tick) == StruckIn(last, strike)
    ensures Turn(q, at, plan, NoEvaluator, world) == Halt(Hit(strike, p))
    ensures |p.steps| == |q.steps| && p.failedIndex == None && p.steps == q.steps[at := p.steps[at]]
    ensures p.steps[at].status in {Executing, Recovering} && Untouched(p.steps[at], Copied(plan.steps[at], at))
    ensures Bears(p.steps[at], StruckMarks(world, q.tick + 1, last, FirstMarks(plan.steps[at])))
  {
    ClearExactly(plan.steps[at].spec, world(q.tick));
    TurnEnds(q, at, plan, world);
    p := Turn(q, at, plan, NoEvaluator, world).stage.p;
  }

  lemma StruckReported(q: Progress, at: nat, plan: Sequence, world: World, tick: nat, last: nat, strike: Strike)
    requires Arrived(q, at, plan, world, tick) && at < |plan.steps| && !world(q.tick).cancel
    requires Clear(plan.steps[at].spec) && TurnFate(plan, world, at, q.tick) == StruckIn(last, strike)
    ensures var m := Turn(q, at, plan, NoEvaluator, world);
            && m.Halt?
            && StrikeReported(Finish(m.stage), plan, world, tick, at, strike,
                              StruckMarks(world, q.tick + 1, last, FirstMarks(plan.steps[at])))
  {
    var p := StruckStage(q, at, plan, world, last, strike);
    var steps := ExpireAll(p.steps);
    assert forall j :: 0 <= j < at ==> steps[j] == q.steps[j];
  }

  /** The step is lost: its failure is recorded before the compensations start. */
  ghost predicate Lost(p: Progress, q: Progress, at: nat, plan: Sequence, marks: Marks, since: nat)
    requires at < |q.steps| == |plan.steps|
  {
    && |p.steps| == |q.steps| && KeptLost(p.steps[at], plan.steps[at], at, marks)
    && (forall j :: 0 <= j < |p.steps| && j != at ==> p.steps[j] == q.steps[j])
    && p.status == Success && p.completed == at && p.failedIndex == Some(at) && p.error == Some(CodeOf(marks))
    && p.tick == since
  }

  lemma LostHere(q: Progress, at: nat, plan: Sequence, world: World)
    requires AtHead(q, at, plan) && at < |plan.steps| && TurnFate(plan, world, at, q.tick).LostAt?
    ensures var end, last := AttemptsAt(q, at, plan, world), TurnFate(plan, world, at, q.tick).at;
            && end.GaveUp?
            && Lost(Fail(Acted(q, end.effects, end.tick), at, end.step, end.error), q, at, plan,
                    LostMarks(world, q.tick + 1, last, FirstMarks(plan.steps[at])), last + 1)
  {
    TurnEnds(q, at, plan, world);
  }

  lemma LostUncalled(p: Progress, q: Progress, at: nat, plan: Sequence, world: World, marks: Marks, since: nat)
    requires AtHead(q, at, plan) && at < |plan.steps| && Lost(p, q, at, plan, marks, since)
    ensures Uncalled(p, at, plan.steps, world, Failure(at, since))
  {}

  /** What the compensations leave. */
  ghost predicate Compensates(undo: Stage, p: Progress, at: nat, plan: Sequence, world: World, f: Failure)
    requires f.at <= |plan.steps| == |p.steps|
  {
    && |undo.p.steps| == |p.steps| && f.at == at
    && (forall j :: 0 <= j < |p.steps| ==> SameButUndo(p.steps[j], undo.p.steps[j]))
    && (forall j :: at <= j < |p.steps| ==> undo.p.steps[j] == p.steps[j])
    && (forall j :: 0 <= j < at ==>
          undo.p.steps[j].undo == if plan.allowCompensation then RecordAfter(p.steps[j].undo, plan.steps, world, f, j)
                                  else p.steps[j].undo)
    && undo.p.status == p.status && undo.p.completed == p.completed
    && undo.p.failedIndex == p.failedIndex && undo.p.error == p.error
    && match UndoStrike(plan, world, f)
       case NoStrike => undo.Ran?
       case strike => undo.Hit? && undo.strike == strike
  }

  lemma UndoneAs(p: Progress, at: nat, plan: Sequence, world: World, f: Failure)
    requires |p.steps| == |plan.steps| && at < |plan.steps| && f.at == at && Uncalled(p, at, plan.steps, world, f)
    requires p.tick == f.since
    ensures Compensates(if plan.allowCompensation then Compensate(p, at, world) else Ran(p), p, at, plan, world, f)
  {
    if plan.allowCompensation {
      var undo := Compensate(p, at, world);
      CompensateFacts(p, at, world);
      CompensationEnds(p, at, world, plan.steps, f);
      forall j: nat | j < at
        ensures undo.p.steps[j].undo == RecordAfter(p.steps[j].undo, plan.steps, world, f, j)
      {
        CompensateRecords(p, at, world, plan.steps, f, j);
      }
      forall j: nat | at <= j < |p.steps| ensures undo.p.steps[j] == p.steps[j] {
        CompensateKeepsBehind(p, at, world, j);
      }
    }
  }

  /** What stands before the lost step once the compensations ended. */
  lemma BeforeCompensated(q: Progress, p: Progress, undo: Stage, at: nat, plan: Sequence, world: World, tick: nat,
                          marks: Marks, f: Failure)
    requires Arrived(q, at, plan, world, tick) && at < |plan.steps| && Lost(p, q, at, plan, marks, f.since)
    requires f.at == at && Compensates(undo, p, at, plan, world, f)
    ensures CompensatedBefore(undo.p.steps, plan, world, tick, f)
    ensures undo.p.steps[at] == p.steps[at]
    ensures forall j :: at < j < |plan.steps| ==> undo.p.steps[j] == Copied(plan.steps[j], j)
  {
    forall j | 0 <= j < f.at
      ensures WonByAnswer(undo.p.steps[j], plan, world, tick, j)
    {
      assert p.steps[j] == q.steps[j] && SameButUndo(p.steps[j], undo.p.steps[j]);
    }
  }

  lemma StopReported(undo: Stage, at: nat, plan: Sequence, world: World, tick: nat, marks: Marks, f: Failure)
    requires |undo.p.steps| == |plan.steps| && f.at == at < |plan.steps| && plan.stopOnFailure
    requires CompensatedBefore(undo.p.steps, plan, world, tick, f)
    requires KeptLost(undo.p.steps[at], plan.steps[at], at, marks)
    requires forall j :: at < j < |plan.steps| ==> undo.p.steps[j] == Copied(plan.steps[j], j)
    requires undo.p.status == Success && undo.p.completed == at
    requires undo.p.failedIndex == Some(at) && undo.p.error == Some(CodeOf(marks))
    requires match UndoStrike(plan, world, f)
      case NoStrike => undo.Ran?
      case strike => undo.Hit? && undo.strike == strike
    ensures var m := AfterUndo(undo, at, plan); m.Halt? && LossReported(Finish(m.stage), plan, world, tick, f, marks)
  {
    if undo.Hit? && undo.strike == SequenceDeadline {
      var steps := ExpireAll(undo.p.steps);
      assert forall j :: 0 <= j <= at ==> steps[j] == undo.p.steps[j];
    }
  }

  /** What follows the record of a lost step. */
  lemma RecoveryReported(p: Progress, q: Progress, at: nat, plan: Sequence, world: World, tick: nat, marks: Marks,
                         f: Failure)
    requires Arrived(q, at, plan, world, tick) && at < |plan.steps| && f.at == at
    requires Lost(p, q, at, plan, marks, f.since)
    ensures LossMove(Recover(p, at, plan, world), plan, world, tick, f, marks)
  {
    LostUncalled(p, q, at, plan, world, marks, f.since);
    UndoneAs(p, at, plan, world, f);
    var undo := if plan.allowCompensation then Compensate(p, at, world) else Ran(p);
    BeforeCompensated(q, p, undo, at, plan, world, tick, marks, f);
    StopReported(undo, at, plan, world, tick, marks, f);
  }

  lemma TurnRecovers(q: Progress, at: nat, plan: Sequence, world: World, last: nat) returns (p: Progress)
    requires AtHead(q, at, plan) && at < |plan.steps| && !world(q.tick).cancel
    requires Clear(plan.steps[at].spec) && TurnFate(plan, world, at, q.tick) == LostAt(last)
    ensures |p.steps| == |q.steps| && Turn(q, at, plan, NoEvaluator, world) == Recover(p, at, plan, world)
    ensures Lost(p, q, at, plan, LostMarks(world, q.tick + 1, last, FirstMarks(plan.steps[at])), last + 1)
  {
    var end := AttemptsAt(q, at, plan, world);
    ClearExactly(plan.steps[at].spec, world(q.tick));
    LostHere(q, at, plan, world);
    p := Fail(Acted(q, end.effects, end.tick), at, end.step, end.error);
  }

  /** The turn ends the run with a lost step. */
  ghost predicate LossMove(m: Move, plan: Sequence, world: World, tick: nat, f: Failure, marks: Marks)
    requires f.at < |plan.steps|
  {
    m.Halt? && LossReported(Finish(m.stage), plan, world, tick, f, marks)
  }

  lemma LossMeans(m: Move, q: Progress, plan: Sequence, world: World, tick: nat, at: nat, last: nat)
    requires at < |plan.steps| && !world(q.tick).cancel
    requires Clear(plan.steps[at].spec) && TurnFate(plan, world, at, q.tick) == LostAt(last)
    requires LossMove(m, plan, world, tick, Failure(at, last + 1),
                      LostMarks(world, q.tick + 1, last, FirstMarks(plan.steps[at])))
    ensures m.Halt? && Reports(Finish(m.stage), EndFrom(plan, world, at, q.tick), plan, world, tick)
  {
    EndsLost(q, at, plan, world, last);
  }

  lemma StrikeMeans(out: Outcome, plan: Sequence, world: World, tick: nat, at: nat, start: nat, last: nat,
                    strike: Strike)
    requires at < |plan.steps| && start <= last
    requires StrikeReported(out, plan, world, tick, at, strike,
                            StruckMarks(world, start, last, FirstMarks(plan.steps[at])))
    ensures Reports(out, StepStruck(at, start, last, strike), plan, world, tick)
  {}

  lemma EndsLost(q: Progress, at: nat, plan: Sequence, world: World, last: nat)
    requires at < |plan.steps| && !world(q.tick).cancel && Clear(plan.steps[at].spec)
    requires TurnFate(plan, world, at, q.tick) == LostAt(last)
    ensures EndFrom(plan, world, at, q.tick) == StepLost(at, q.tick + 1, last)
  {}

  lemma EndsStruck(q: Progress, at: nat, plan: Sequence, world: World, last: nat, strike: Strike)
    requires at < |plan.steps| && !world(q.tick).cancel && Clear(plan.steps[at].spec)
    requires TurnFate(plan, world, at, q.tick) == StruckIn(last, strike)
    ensures EndFrom(plan, world, at, q.tick) == StepStruck(at, q.tick + 1, last, strike)
  {}

  lemma LostTurnReported(q: Progress, at: nat, plan: Sequence, world: World, tick: nat, last: nat)
    requires Arrived(q, at, plan, world, tick) && at < |plan.steps| && !world(q.tick).cancel
    requires Clear(plan.steps[at].spec) && TurnFate(plan, world, at, q.tick) == LostAt(last)
    ensures var m := Turn(q, at, plan, NoEvaluator, world);
            m.Halt? && Reports(Finish(m.stage), EndFrom(plan, world, at, q.tick), plan, world, tick)
  {
    var p := TurnRecovers(q, at, plan, world, last);
    RecoveryReported(p, q, at, plan, world, tick, LostMarks(world, q.tick + 1, last, FirstMarks(plan.steps[at])),
                     Failure(at, last + 1));
    LossMeans(Turn(q, at, plan, NoEvaluator, world), q, plan, world, tick, at, last);
  }

  lemma StruckTurnReported(q: Progress, at: nat, plan: Sequence, world: World, tick: nat, last: nat, strike: Strike)
    requires Arrived(q, at, plan, world, tick) && at < |plan.steps| && !world(q.tick).cancel
    requires Clear(plan.steps[at].spec) && TurnFate(plan, world, at, q.tick) == StruckIn(last, strike)
    ensures var m := Turn(q, at, plan, NoEvaluator, world);
            m.Halt? && Reports(Finish(m.stage), EndFrom(plan, world, at, q.tick), plan, world, tick)
  {
    StruckReported(q, at, plan, world, tick, last, strike);
    EndsStruck(q, at, plan, world, last, strike);
    StrikeMeans(Finish(Turn(q, at, plan, NoEvaluator, world).stage), plan, world, tick, at, q.tick + 1, last, strike);
  }

  lemma LastTurnReported(q: Progress, at: nat, plan: Sequence, world: World, tick: nat)
    requires Arrived(q, at, plan, world, tick) && at < |plan.steps| && !WinsTurn(q, at, plan, world)
    ensures var m := Turn(q, at, plan, NoEvaluator, world);
            m.Halt? && Reports(Finish(m.stage), EndFrom(plan, world, at, q.tick), plan, world, tick)
  {
    if world(q.tick).cancel {
      CancelReported(q, at, plan, world, tick);
    } else if !Clear(plan.steps[at].spec) {
      DenialReported(q, at, plan, world, tick);
    } else {
      match TurnFate(plan, world, at, q.tick)
      case LostAt(last) => LostTurnReported(q, at, plan, world, tick, last);
      case StruckIn(last, strike) => StruckTurnReported(q, at, plan, world, tick, last, strike);
    }
  }

  /** The report of a run, exactly. The plan and the answers alone tell which attempts are made, how the
      run ends, and every field of every step it leaves: the marks of the answer that counted, the error
      code, the record of its compensation, and how the steps behind are settled. */
  lemma RunReportsExactly(plan: Sequence, world: World, tick: nat)
    requires plan.stopOnFailure
    ensures Reports(Execute(plan, NoEvaluator, world, tick), EndFrom(plan, world, 0, tick), plan, world, tick)
  {
    var p := Start(plan, tick);
    var q, at := RunArrives(p, 0, plan, world);
    assert Arrived(q, at, plan, world, tick);
    if at == |plan.steps| {
      AllReported(q, plan, world, tick);
    } else {
      LastTurnReported(q, at, plan, world, tick);
      StepLoopUnfolds(q, at, plan, NoEvaluator, world);
    }
  }
}
