/** What every run of a composite sequence guarantees, whatever the environment answers. */
module SequenceFacts {
  import opened Domain
  import opened SequenceSpec

  // ---- counting statuses

  ghost function Count(steps: seq<Step>, p: Step -> bool): nat {
    if steps == [] then 0 else Count(steps[..|steps| - 1], p) + (if p(steps[|steps| - 1]) then 1 else 0)
  }

  lemma {:induction false} CountUpdate(steps: seq<Step>, i: nat, s: Step, p: Step -> bool)
    requires i < |steps|
    ensures Count(steps[i := s], p) + (if p(steps[i]) then 1 else 0)
         == Count(steps, p) + (if p(s) then 1 else 0)
  {
    var n := |steps| - 1;
    if i == n {
      assert steps[i := s][..n] == steps[..n];
    } else {
      assert steps[i := s][..n] == steps[..n][i := s];
      CountUpdate(steps[..n], i, s, p);
    }
  }

  lemma {:induction false} CountAgree(s: seq<Step>, t: seq<Step>, p: Step -> bool)
    requires |s| == |t|
    requires forall j :: 0 <= j < |s| ==> p(s[j]) == p(t[j])
    ensures Count(s, p) == Count(t, p)
  {
    if s != [] {
      CountAgree(s[..|s| - 1], t[..|t| - 1], p);
    }
  }

  lemma {:induction false} CountBound(s: seq<Step>, p: Step -> bool)
    ensures Count(s, p) <= |s|
    ensures Count(s, p) == |s| <==> forall j :: 0 <= j < |s| ==> p(s[j])
    ensures Count(s, p) == 0 <==> forall j :: 0 <= j < |s| ==> !p(s[j])
  {
    if s != [] {
      var front := s[..|s| - 1];
      CountBound(front, p);
      assert forall j :: 0 <= j < |front| ==> front[j] == s[j];
    }
  }

  // ---- the result of a run

  /** A step's final status is backed by the evidence it needs. */
  predicate Backed(s: Step) {
    && (s.status == VerifiedSuccess ==> SaysTrue(s.verdict))
    && (s.status == ActuationAccepted ==> !s.spec.requiresVerification && s.accepted)
  }

  /** The statuses a run may leave before the point where it stopped. */
  predicate Passed(s: Step, stopOnFailure: bool) { Done(s) || (!stopOnFailure && s.status == StepFailed) }

  /** done*, done* FAILED SKIPPED*, or done* CANCELLED+; without stop-on-failure, failed steps
      may stand among the done ones. */
  ghost predicate Shape(steps: seq<Step>, stopOnFailure: bool) {
    exists k: nat :: k <= |steps| && ShapeAt(steps, stopOnFailure, k)
  }

  ghost predicate ShapeAt(steps: seq<Step>, stopOnFailure: bool, k: nat)
    requires k <= |steps|
  {
    && (forall j :: 0 <= j < k ==> Passed(steps[j], stopOnFailure))
    && (k < |steps| ==>
          || (steps[k].status == StepFailed && forall j :: k < j < |steps| ==> steps[j].status == Skipped)
          || (forall j :: k <= j < |steps| ==> steps[j].status == Cancelled))
  }

  ghost predicate Kept(steps: seq<Step>, plan: Sequence) {
    && |steps| == |plan.steps|
    && (forall j :: 0 <= j < |steps| ==> SamePlan(plan.steps[j], steps[j]) && steps[j].index == j && Backed(steps[j]))
  }

  ghost predicate Counted(p: Progress) {
    && p.completed == Count(p.steps, Done)
    && p.verified == Count(p.steps, IsVerified)
  }

  /** The failed index points at a failed step; with stop-on-failure, all before it are done. */
  ghost predicate Pointed(p: Progress, plan: Sequence) {
    p.failedIndex.Some? ==>
      && p.failedIndex.value < |p.steps|
      && p.steps[p.failedIndex.value].status == StepFailed
      && (plan.stopOnFailure ==> forall j :: 0 <= j < p.failedIndex.value ==> Done(p.steps[j]))
  }

  ghost predicate Settled(p: Progress, plan: Sequence) {
    && Kept(p.steps, plan) && Counted(p) && Pointed(p, plan)
    && Shape(p.steps, plan.stopOnFailure)
    && (p.status == Success <==> forall j :: 0 <= j < |p.steps| ==> Done(p.steps[j]))
    && (p.status == PartialFailure || p.status == Failed || p.status == PermissionDenied ==> p.failedIndex.Some?)
    && (p.status == PartialFailure ==> p.completed > 0)
    && (p.status == Failed ==> p.completed == 0)
  }

  /** The loop head: what is behind has passed, what is ahead is untouched. */
  ghost predicate Underway(p: Progress, idx: nat, plan: Sequence) {
    && Kept(p.steps, plan) && Counted(p) && Pointed(p, plan)
    && idx <= |p.steps|
    && p.status == Success
    && (forall j :: 0 <= j < idx ==> Passed(p.steps[j], plan.stopOnFailure))
    && (forall j :: idx <= j < |p.steps| ==> p.steps[j].status == Pending)
    && (p.failedIndex.None? ==> forall j :: 0 <= j < idx ==> Done(p.steps[j]))
    && (p.failedIndex.Some? ==> p.failedIndex.value < idx)
  }

  /** A deadline struck while the step at `at` was the current one. */
  ghost predicate Caught(p: Progress, at: nat, plan: Sequence) {
    && Kept(p.steps, plan) && Counted(p) && Pointed(p, plan)
    && at < |p.steps|
    && (forall j :: 0 <= j < at ==> Passed(p.steps[j], plan.stopOnFailure))
    && p.steps[at].status in {Executing, Recovering, StepFailed}
    && (forall j :: at < j < |p.steps| ==> p.steps[j].status == Pending)
  }

  /** The step an attempt started from, with what the attempt may write. */
  predicate Tried(before: Step, after: Step) {
    after == before.(status := after.status, accepted := after.accepted, verdict := after.verdict)
  }

  predicate EndOk(before: Step, end: AttemptEnd) {
    && Tried(before, end.step)
    && (end.Achieved? ==> Done(end.step) && Backed(end.step))
    && (!end.Achieved? ==> end.step.status in {Executing, Recovering})
    && (end.Struck? ==> end.strike != NoStrike)
  }

  lemma AttemptFacts(position: nat, step: Step, more: bool, last: Option<ErrorCode>,
                     world: World, effects: seq<Effect>, tick: nat)
    requires step.status in {Executing, Recovering}
    ensures match Attempt(position, step, more, last, world, effects, tick)
            case Over(end) => EndOk(step, end)
            case Again(next, _, _, _) => Tried(step, next) && next.status == Recovering
  {}

  lemma {:induction false} AttemptsFacts(position: nat, step: Step, attempt: nat, limit: nat, last: Option<ErrorCode>,
                                         world: World, effects: seq<Effect>, tick: nat)
    requires step.status in {Executing, Recovering}
    ensures EndOk(step, Attempts(position, step, attempt, limit, last, world, effects, tick))
    decreases limit - attempt
  {
    if attempt < limit {
      AttemptFacts(position, step, attempt + 1 < limit, last, world, effects, tick);
      var t := Attempt(position, step, attempt + 1 < limit, last, world, effects, tick);
      if t.Again? {
        AttemptsFacts(position, t.step, attempt + 1, limit, t.error, world, t.effects, t.tick);
      }
    }
  }

  /** Two steps that differ in their undo record only. */
  predicate SameButUndo(s: Step, t: Step) {
    && t.id == s.id && t.index == s.index && t.spec == s.spec && t.status == s.status
    && t.accepted == s.accepted && t.verdict == s.verdict && t.error == s.error
  }

  lemma {:induction false} CompensateFacts(p: Progress, count: nat, world: World)
    requires count <= |p.steps|
    ensures var stage := Compensate(p, count, world);
            && |stage.p.steps| == |p.steps|
            && (forall j :: 0 <= j < |p.steps| ==> SameButUndo(p.steps[j], stage.p.steps[j]))
            && stage.p == p.(steps := stage.p.steps, undone := stage.p.undone,
                             effects := stage.p.effects, tick := stage.p.tick)
            && (stage.Hit? ==> stage.strike != NoStrike)
    decreases count
  {
    if count > 0 {
      var prev := p.steps[count - 1];
      if prev.spec.compensation.None? || prev.undo.executed {
        CompensateFacts(p, count - 1, world);
      } else {
        var o := world(p.tick);
        if o.strike == NoStrike {
          CompensateFacts(Recorded(p, count - 1, o), count - 1, world);
        }
      }
    }
  }

  lemma KeptCompensation(before: seq<Step>, after: seq<Step>, plan: Sequence)
    requires Kept(before, plan) && |after| == |before|
    requires forall j :: 0 <= j < |before| ==> SameButUndo(before[j], after[j])
    ensures Kept(after, plan)
    ensures Count(after, Done) == Count(before, Done)
    ensures Count(after, IsVerified) == Count(before, IsVerified)
  {
    CountAgree(after, before, Done);
    CountAgree(after, before, IsVerified);
  }

  lemma KeptUpdate(p: Progress, idx: nat, step: Step, plan: Sequence)
    requires Kept(p.steps, plan) && idx < |p.steps| && Counted(p) && p.steps[idx].status == Pending
    requires step == p.steps[idx].(status := step.status, accepted := step.accepted, verdict := step.verdict,
                                   error := step.error)
    requires Backed(step)
    ensures Kept(p.steps[idx := step], plan)
    ensures Count(p.steps[idx := step], Done) == p.completed + (if Done(step) then 1 else 0)
    ensures Count(p.steps[idx := step], IsVerified) == p.verified + (if IsVerified(step) then 1 else 0)
  {
    CountUpdate(p.steps, idx, step, Done);
    CountUpdate(p.steps, idx, step, IsVerified);
  }

  lemma KeptTail(p: Progress, from: nat, status: StepStatus, plan: Sequence)
    requires Kept(p.steps, plan) && from <= |p.steps| && Counted(p)
    requires forall j :: from <= j < |p.steps| ==> p.steps[j].status == Pending
    requires status in {Cancelled, Skipped}
    ensures Kept(SetFrom(p.steps, from, status), plan)
    ensures Counted(p.(steps := SetFrom(p.steps, from, status)))
  {
    CountAgree(SetFrom(p.steps, from, status), p.steps, Done);
    CountAgree(SetFrom(p.steps, from, status), p.steps, IsVerified);
  }

  lemma ExpireKeeps(steps: seq<Step>, plan: Sequence)
    requires Kept(steps, plan)
    ensures Kept(ExpireAll(steps), plan)
    ensures Count(ExpireAll(steps), Done) == Count(steps, Done)
    ensures Count(ExpireAll(steps), IsVerified) == Count(steps, IsVerified)
  {
    CountAgree(ExpireAll(steps), steps, Done);
    CountAgree(ExpireAll(steps), steps, IsVerified);
  }

  lemma ExpireShape(p: Progress, at: nat, plan: Sequence)
    requires Caught(p, at, plan)
    ensures ShapeAt(ExpireAll(p.steps), plan.stopOnFailure, at) && !Done(ExpireAll(p.steps)[at])
  {}

  lemma ExpireFacts(p: Progress, at: nat, plan: Sequence)
    requires Caught(p, at, plan)
    ensures Settled(p.(status := Timeout, error := Some(TimeoutError), steps := ExpireAll(p.steps)), plan)
  {
    ExpireKeeps(p.steps, plan);
    ExpireShape(p, at, plan);
    var q := p.(status := Timeout, error := Some(TimeoutError), steps := ExpireAll(p.steps));
    assert Pointed(q, plan);
  }

  lemma ConcludeFacts(p: Progress, idx: nat, plan: Sequence)
    requires Underway(p, idx, plan) && idx == |p.steps|
    ensures Settled(Conclude(p), plan)
  {
    CountBound(p.steps, Done);
    assert ShapeAt(p.steps, plan.stopOnFailure, idx);
  }

  ghost predicate StageOk(stage: Stage, plan: Sequence) {
    match stage
    case Ran(p) => Settled(Conclude(p), plan)
    case Hit(strike, p) => strike != NoStrike && exists at: nat :: Caught(p, at, plan)
  }

  lemma StoppedShape(p: Progress, idx: nat, stopOnFailure: bool, status: StepStatus)
    requires idx < |p.steps| && forall j :: 0 <= j < idx ==> Passed(p.steps[j], stopOnFailure)
    requires status in {Cancelled, Skipped}
    requires if status == Cancelled then p.steps[idx].status == Pending else p.steps[idx].status == StepFailed
    ensures var steps := SetFrom(p.steps, if status == Cancelled then idx else idx + 1, status);
            Shape(steps, stopOnFailure) && !Done(steps[idx])
  {
    var steps := SetFrom(p.steps, if status == Cancelled then idx else idx + 1, status);
    assert ShapeAt(steps, stopOnFailure, idx);
  }

  lemma StoppedPointed(p: Progress, from: nat, plan: Sequence, status: StepStatus)
    requires Pointed(p, plan) && from <= |p.steps| && forall j :: from <= j < |p.steps| ==> p.steps[j].status == Pending
    ensures Pointed(p.(steps := SetFrom(p.steps, from, status)), plan)
  {}

  /** The loop stops at `idx`: the step there is not done and the rest is marked alike. */
  lemma StopFacts(p: Progress, idx: nat, plan: Sequence, status: StepStatus, terminal: TerminalStatus,
                  error: Option<ErrorCode>)
    requires Kept(p.steps, plan) && Counted(p) && Pointed(p, plan) && idx < |p.steps|
    requires forall j :: 0 <= j < idx ==> Passed(p.steps[j], plan.stopOnFailure)
    requires forall j :: idx < j < |p.steps| ==> p.steps[j].status == Pending
    requires status in {Cancelled, Skipped}
    requires if status == Cancelled then p.steps[idx].status == Pending else p.steps[idx].status == StepFailed
    requires terminal != Success
    requires terminal in {PartialFailure, Failed, PermissionDenied} ==> p.failedIndex.Some?
    requires terminal in {PartialFailure, Failed} ==> terminal == Partial(p.completed)
    ensures var from := if status == Cancelled then idx else idx + 1;
            Settled(p.(steps := SetFrom(p.steps, from, status), status := terminal, error := error), plan)
  {
    var from := if status == Cancelled then idx else idx + 1;
    KeptTail(p, from, status, plan);
    StoppedShape(p, idx, plan.stopOnFailure, status);
    StoppedPointed(p, from, plan, status);
  }

  lemma UndoneFacts(p: Progress, q: Progress, idx: nat, plan: Sequence)
    requires idx < |p.steps| && Caught(p, idx, plan)
    requires |q.steps| == |p.steps| && forall j :: 0 <= j < |p.steps| ==> SameButUndo(p.steps[j], q.steps[j])
    requires q.completed == p.completed && q.verified == p.verified && q.failedIndex == p.failedIndex
    ensures Caught(q, idx, plan)
  {
    KeptCompensation(p.steps, q.steps, plan);
  }

  lemma RecoveredStops(q: Progress, idx: nat, plan: Sequence)
    requires idx < |q.steps| && Caught(q, idx, plan)
    requires q.steps[idx].status == StepFailed && q.failedIndex == Some(idx)
    ensures StageOk(Ran(q.(status := Partial(q.completed), steps := SetFrom(q.steps, idx + 1, Skipped))), plan)
  {
    StopFacts(q, idx, plan, Skipped, Partial(q.completed), q.error);
  }

  lemma RecoveredGoesOn(q: Progress, idx: nat, plan: Sequence)
    requires idx < |q.steps| && Caught(q, idx, plan) && q.status == Success && !plan.stopOnFailure
    requires q.steps[idx].status == StepFailed && q.failedIndex == Some(idx)
    ensures Underway(q, idx + 1, plan)
  {}

  lemma AfterUndoFacts(undo: Stage, idx: nat, plan: Sequence)
    requires idx < |undo.p.steps| && Caught(undo.p, idx, plan) && undo.p.status == Success
    requires undo.p.steps[idx].status == StepFailed && undo.p.failedIndex == Some(idx)
    requires undo.Hit? ==> undo.strike != NoStrike
    ensures MoveOk(AfterUndo(undo, idx, plan), idx, plan)
  {
    if undo.Ran? {
      if plan.stopOnFailure {
        RecoveredStops(undo.p, idx, plan);
      } else {
        RecoveredGoesOn(undo.p, idx, plan);
      }
    }
  }

  lemma RecoverFacts(p: Progress, idx: nat, plan: Sequence, world: World)
    requires idx < |p.steps| && Caught(p, idx, plan) && p.status == Success
    requires p.steps[idx].status == StepFailed && p.failedIndex == Some(idx)
    ensures MoveOk(Recover(p, idx, plan, world), idx, plan)
  {
    CompensateFacts(p, idx, world);
    var undo := if plan.allowCompensation then Compensate(p, idx, world) else Ran(p);
    UndoneFacts(p, undo.p, idx, plan);
    assert SameButUndo(p.steps[idx], undo.p.steps[idx]);
    AfterUndoFacts(undo, idx, plan);
  }

  ghost predicate MoveOk(move: Move, idx: nat, plan: Sequence) {
    match move
    case Proceed(q) => Underway(q, idx + 1, plan)
    case Halt(stage) => StageOk(stage, plan)
  }

  lemma AchievedFacts(p: Progress, idx: nat, plan: Sequence, done: Step, effects: seq<Effect>, tick: nat)
    requires Underway(p, idx, plan) && idx < |p.steps|
    requires Tried(p.steps[idx], done) && Done(done) && Backed(done)
    ensures Underway(Advance(Acted(p, effects, tick), idx, done), idx + 1, plan)
  {
    KeptUpdate(p, idx, done, plan);
  }

  lemma StruckFacts(p: Progress, idx: nat, plan: Sequence, hit: Step, effects: seq<Effect>, tick: nat)
    requires Underway(p, idx, plan) && idx < |p.steps|
    requires Tried(p.steps[idx], hit) && hit.status in {Executing, Recovering}
    ensures Caught(p.(effects := effects, tick := tick, steps := p.steps[idx := hit]), idx, plan)
  {
    KeptUpdate(p, idx, hit, plan);
  }

  lemma FailedFacts(p: Progress, idx: nat, plan: Sequence, failed: Step, last: Option<ErrorCode>,
                    effects: seq<Effect>, tick: nat)
    requires Underway(p, idx, plan) && idx < |p.steps|
    requires Tried(p.steps[idx], failed)
    ensures Caught(Fail(Acted(p, effects, tick), idx, failed, last), idx, plan)
  {
    var q := Fail(Acted(p, effects, tick), idx, failed, last);
    KeptUpdate(p, idx, q.steps[idx], plan);
    assert plan.stopOnFailure ==> forall j :: 0 <= j < idx ==> Done(p.steps[j]);
  }

  /** The step at `idx` is settled as failed and is now the failed index. */
  ghost predicate Blamed(p: Progress, idx: nat, plan: Sequence) {
    && Kept(p.steps, plan) && Counted(p) && Pointed(p, plan)
    && idx < |p.steps| && p.failedIndex == Some(idx)
    && (forall j :: 0 <= j < idx ==> Passed(p.steps[j], plan.stopOnFailure))
    && (forall j :: idx < j < |p.steps| ==> p.steps[j].status == Pending)
  }

  function Refused(p: Progress, idx: nat): Progress
    requires idx < |p.steps|
  {
    p.(steps := p.steps[idx := p.steps[idx].(status := StepFailed, error := Some(PermissionRequiredError))],
       failedIndex := Some(idx))
  }

  lemma RefusedFacts(p: Progress, idx: nat, plan: Sequence)
    requires Underway(p, idx, plan) && idx < |p.steps|
    ensures Blamed(Refused(p, idx), idx, plan)
  {
    KeptUpdate(p, idx, Refused(p, idx).steps[idx], plan);
    assert plan.stopOnFailure ==> forall j :: 0 <= j < idx ==> Done(p.steps[j]);
  }

  lemma DenyFacts(p: Progress, idx: nat, plan: Sequence)
    requires Underway(p, idx, plan) && idx < |p.steps|
    ensures MoveOk(Halt(Ran(Deny(Answered(p), idx))), idx, plan)
  {
    var q := Refused(Answered(p), idx);
    RefusedFacts(Answered(p), idx, plan);
    StopFacts(q, idx, plan, Skipped, PermissionDenied, Some(PermissionRequiredError));
    assert Deny(Answered(p), idx)
        == q.(steps := SetFrom(q.steps, idx + 1, Skipped), status := PermissionDenied,
          error := Some(PermissionRequiredError));
  }

  lemma AttemptedFacts(p: Progress, idx: nat, plan: Sequence, end: AttemptEnd, world: World)
    requires Underway(p, idx, plan) && idx < |p.steps|
    requires EndOk(p.steps[idx].(status := Executing), end)
    ensures MoveOk(AfterAttempts(p, idx, plan, end, world), idx, plan)
  {
    match end
    case Achieved(done, effects, tick) => AchievedFacts(p, idx, plan, done, effects, tick);
    case Struck(_, hit, effects, tick) => StruckFacts(p, idx, plan, hit, effects, tick);
    case GaveUp(failed, last, effects, tick) =>
      FailedFacts(p, idx, plan, failed, last, effects, tick);
      RecoverFacts(Fail(Acted(p, effects, tick), idx, failed, last), idx, plan, world);
  }

  lemma CancelFacts(p: Progress, idx: nat, plan: Sequence)
    requires Underway(p, idx, plan) && idx < |p.steps|
    ensures MoveOk(Halt(Ran(CancelFrom(Answered(p), idx))), idx, plan)
  {
    StopFacts(Answered(p), idx, plan, Cancelled, CancelledRun, Some(CancelledError));
  }

  lemma TurnFacts(p: Progress, idx: nat, plan: Sequence, gate: Gate, world: World)
    requires Underway(p, idx, plan) && idx < |p.steps|
    ensures MoveOk(Turn(p, idx, plan, gate, world), idx, plan)
  {
    var o := world(p.tick);
    if o.cancel {
      CancelFacts(p, idx, plan);
    } else if Gated(p.steps[idx].spec) && !Allowed(p.steps[idx].spec, gate, o) {
      DenyFacts(p, idx, plan);
    } else {
      var begun := p.steps[idx].(status := Executing);
      AttemptsFacts(idx, begun, 0, AttemptLimit(plan.maxRetries), None, world, p.effects, p.tick + 1);
      var end := Attempts(idx, begun, 0, AttemptLimit(plan.maxRetries), None, world, p.effects, p.tick + 1);
      AttemptedFacts(p, idx, plan, end, world);
    }
  }

  lemma {:induction false} StepLoopFacts(p: Progress, idx: nat, plan: Sequence, gate: Gate, world: World)
    requires Underway(p, idx, plan)
    ensures StageOk(StepLoop(p, idx, plan, gate, world), plan)
    decreases |p.steps| - idx
  {
    if idx == |p.steps| {
      ConcludeFacts(p, idx, plan);
    } else {
      var move := Turn(p, idx, plan, gate, world);
      TurnFacts(p, idx, plan, gate, world);
      if move.Proceed? {
        StepLoopFacts(move.p, idx + 1, plan, gate, world);
      }
      StepLoopUnfolds(p, idx, plan, gate, world);
    }
  }

  /** Every result an execution returns is truthful, whatever the schedule of outcomes, cancels
      and deadlines: see Settled. */
  lemma ExecutionIsTruthful(plan: Sequence, gate: Gate, world: World, tick: nat)
    ensures var out := Execute(plan, gate, world, tick);
            out.Returned? ==> Settled(out.result, plan)
  {
    var p := Start(plan, tick);
    CountBound(p.steps, Done);
    CountBound(p.steps, IsVerified);
    assert Underway(p, 0, plan);
    StepLoopFacts(p, 0, plan, gate, world);
    var stage := StepLoop(p, 0, plan, gate, world);
    if stage.Hit? && stage.strike == SequenceDeadline {
      var at: nat :| Caught(stage.p, at, plan);
      ExpireFacts(stage.p, at, plan);
    }
  }
}
