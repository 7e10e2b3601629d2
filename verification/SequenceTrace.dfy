/** What a run of a composite sequence does to the outside world: which actuations it may
    start, how many, and which compensations it records. */
module SequenceTrace {
  import opened Domain
  import opened SequenceSpec
  import opened SequenceFacts

  // ---- forward actuations

  function Forwards(effects: seq<Effect>): nat {
    if effects == [] then 0
    else Forwards(effects[..|effects| - 1]) + (if effects[|effects| - 1].Forward? then 1 else 0)
  }

  lemma ForwardsAdd(effects: seq<Effect>, e: Effect)
    ensures Forwards(effects + [e]) == Forwards(effects) + (if e.Forward? then 1 else 0)
  {
    assert (effects + [e])[..|effects|] == effects;
  }

  /** An actuation belongs to a step of the plan, was started with the cancel event unset, and,
      if the step is gated, after the gate let it through. */
  ghost predicate Licensed(e: Effect, plan: Sequence, gate: Gate, world: World, start: nat) {
    && e.position < |plan.steps|
    && e.id == plan.steps[e.position].id
    && start <= e.tick
    && (e.Forward? ==>
          && !world(e.tick).cancel
          && (Gated(plan.steps[e.position].spec) ==>
                exists t :: start <= t < e.tick && Allowed(plan.steps[e.position].spec, gate, world(t))))
    && (e.Undo? ==> plan.steps[e.position].spec.compensation.Some? && !plan.steps[e.position].undo.executed)
  }

  ghost predicate Ledger(effects: seq<Effect>, plan: Sequence, gate: Gate, world: World, start: nat, tick: nat) {
    && start <= tick
    && (forall e :: e in effects ==> Licensed(e, plan, gate, world, start) && e.tick < tick)
  }

  /** The step at `idx` passed the gate at some tick before `tick`. */
  ghost predicate Cleared(idx: nat, plan: Sequence, gate: Gate, world: World, start: nat, tick: nat)
    requires idx < |plan.steps|
  {
    Gated(plan.steps[idx].spec) ==> exists t :: start <= t < tick && Allowed(plan.steps[idx].spec, gate, world(t))
  }

  /** What one attempt adds to the ledger. */
  ghost predicate TryOk(t: Try, step: Step, forwards: nat, plan: Sequence, gate: Gate, world: World, start: nat) {
    match t
    case Over(end) =>
      Ledger(end.effects, plan, gate, world, start, end.tick) && Forwards(end.effects) <= forwards + 1
    case Again(next, _, effects, tick) =>
      next.id == step.id && Ledger(effects, plan, gate, world, start, tick) && Forwards(effects) <= forwards + 1
  }

  lemma LedgerAdds(idx: nat, step: Step, world: World, effects: seq<Effect>, tick: nat, plan: Sequence, gate: Gate,
                   start: nat)
    requires idx < |plan.steps| && step.id == plan.steps[idx].id && !world(tick).cancel
    requires Ledger(effects, plan, gate, world, start, tick) && Cleared(idx, plan, gate, world, start, tick)
    ensures var acted := effects + [Forward(idx, step.id, tick)];
            Ledger(acted, plan, gate, world, start, tick + 1) && Forwards(acted) == Forwards(effects) + 1
  {
    var e := Forward(idx, step.id, tick);
    ForwardsAdd(effects, e);
    assert Licensed(e, plan, gate, world, start);
  }

  /** An attempt takes one tick and makes one actuation, unless it sees a cancel. */
  lemma AttemptActs(idx: nat, step: Step, more: bool, last: Option<ErrorCode>, world: World, effects: seq<Effect>,
                    tick: nat)
    ensures var t := Attempt(idx, step, more, last, world, effects, tick);
            var acted := if world(tick).cancel then effects else effects + [Forward(idx, step.id, tick)];
            match t
            case Over(end) => end.effects == acted && end.tick == tick + 1
            case Again(next, _, done, later) => next.id == step.id && done == acted && later == tick + 1
  {}

  lemma AttemptLedger(idx: nat, step: Step, more: bool, last: Option<ErrorCode>, world: World, effects: seq<Effect>,
                      tick: nat, plan: Sequence, gate: Gate, start: nat)
    requires idx < |plan.steps| && step.id == plan.steps[idx].id
    requires Ledger(effects, plan, gate, world, start, tick) && Cleared(idx, plan, gate, world, start, tick)
    ensures TryOk(Attempt(idx, step, more, last, world, effects, tick), step, Forwards(effects), plan, gate, world,
            start)
  {
    AttemptActs(idx, step, more, last, world, effects, tick);
    if !world(tick).cancel {
      LedgerAdds(idx, step, world, effects, tick, plan, gate, start);
    }
  }

  lemma {:induction false} AttemptsLedger(idx: nat, step: Step, attempt: nat, limit: nat, last: Option<ErrorCode>,
                                          world: World, effects: seq<Effect>, tick: nat,
                                          plan: Sequence, gate: Gate, start: nat)
    requires idx < |plan.steps| && step.id == plan.steps[idx].id && attempt <= limit
    requires Ledger(effects, plan, gate, world, start, tick)
    requires Cleared(idx, plan, gate, world, start, tick)
    ensures var end := Attempts(idx, step, attempt, limit, last, world, effects, tick);
            && Ledger(end.effects, plan, gate, world, start, end.tick)
            && Forwards(end.effects) <= Forwards(effects) + (limit - attempt)
    decreases limit - attempt
  {
    if attempt < limit {
      AttemptsUnfold(idx, step, attempt, limit, last, world, effects, tick);
      AttemptLedger(idx, step, attempt + 1 < limit, last, world, effects, tick, plan, gate, start);
      var t := Attempt(idx, step, attempt + 1 < limit, last, world, effects, tick);
      if t.Again? {
        AttemptsLedger(idx, t.step, attempt + 1, limit, t.error, world, t.effects, t.tick, plan, gate, start);
      }
    }
  }

  // ---- compensations

  predicate Descending(s: seq<nat>) { forall i, j :: 0 <= i < j < |s| ==> s[i] > s[j] }

  predicate Distinct<T(==)>(s: seq<T>) { forall i, j :: 0 <= i < j < |s| ==> s[i] != s[j] }

  /** Which compensations have run: those recorded in `undone`, and those that had run before. */
  ghost predicate Undos(p: Progress, plan: Sequence) {
    && |p.steps| == |plan.steps|
    && (forall j :: 0 <= j < |p.steps| ==>
          && SamePlan(p.steps[j], plan.steps[j])
          && (p.steps[j].undo.executed <==> plan.steps[j].undo.executed || j in p.undone))
    && (forall u :: u in p.undone ==>
          u < |plan.steps| && plan.steps[u].spec.compensation.Some? && !plan.steps[u].undo.executed)
    && Distinct(p.undone)
  }

  ghost predicate Traced(p: Progress, plan: Sequence, gate: Gate, world: World, start: nat) {
    && Undos(p, plan)
    && Ledger(p.effects, plan, gate, world, start, p.tick)
  }

  /** `after` extends the undo list of `before` by a descending run of indices below `count`. */
  ghost predicate Extends(before: seq<nat>, after: seq<nat>, count: nat) {
    && |before| <= |after| && after[..|before|] == before
    && (forall k :: |before| <= k < |after| ==> after[k] < count)
    && (forall i, j :: |before| <= i < j < |after| ==> after[i] > after[j])
  }

  lemma UndoOneLedger(p: Progress, k: nat, plan: Sequence, gate: Gate, world: World, start: nat)
    requires Traced(p, plan, gate, world, start) && k < |p.steps| && Undoable(p.steps[k])
    ensures Ledger(Called(p, k).effects, plan, gate, world, start, p.tick + 1)
    ensures Forwards(Called(p, k).effects) == Forwards(p.effects)
  {
    var e := Undo(k, p.steps[k].id, p.tick);
    ForwardsAdd(p.effects, e);
    assert SamePlan(p.steps[k], plan.steps[k]);
    assert Licensed(e, plan, gate, world, start);
  }

  lemma UndoOneRecord(p: Progress, k: nat, o: Obs, plan: Sequence)
    requires Undos(p, plan) && k < |p.steps| && Undoable(p.steps[k])
    ensures Undos(Recorded(p, k, o), plan)
  {
    assert k !in p.undone;
    var q := Recorded(p, k, o);
    forall j | 0 <= j < |q.steps|
      ensures SamePlan(q.steps[j], plan.steps[j])
      ensures q.steps[j].undo.executed <==> plan.steps[j].undo.executed || j in q.undone
    {
      assert SamePlan(p.steps[j], plan.steps[j]);
    }
  }

  ghost predicate UndoTraced(p: Progress, forwards: nat, plan: Sequence, gate: Gate, world: World, start: nat) {
    Traced(p, plan, gate, world, start) && Forwards(p.effects) == forwards
  }

  lemma {:induction false} CompensateTrace(p: Progress, count: nat, world: World, plan: Sequence, gate: Gate,
                                           start: nat)
    requires Traced(p, plan, gate, world, start) && count <= |p.steps|
    ensures UndoTraced(Compensate(p, count, world).p, Forwards(p.effects), plan, gate, world, start)
    decreases count
  {
    if count > 0 {
      CompensateUnfolds(p, count, world);
      if !Undoable(p.steps[count - 1]) {
        CompensateTrace(p, count - 1, world, plan, gate, start);
      } else {
        UndoOneLedger(p, count - 1, plan, gate, world, start);
        UndoOneRecord(p, count - 1, world(p.tick), plan);
        if world(p.tick).strike == NoStrike {
          CompensateTrace(Recorded(p, count - 1, world(p.tick)), count - 1, world, plan, gate, start);
        }
      }
    }
  }

  lemma {:induction false} CompensateOrder(p: Progress, count: nat, world: World)
    requires count <= |p.steps|
    ensures var stage := Compensate(p, count, world);
            && |stage.p.steps| == |p.steps|
            && Extends(p.undone, stage.p.undone, count)
            && (forall j :: 0 <= j < |p.steps| && p.steps[j].undo.executed ==> stage.p.steps[j].undo.executed)
            && (stage.Ran? ==> forall j :: 0 <= j < count && p.steps[j].spec.compensation.Some? ==>
                                 stage.p.steps[j].undo.executed)
    decreases count
  {
    if count > 0 {
      var prev := p.steps[count - 1];
      if prev.spec.compensation.None? || prev.undo.executed {
        CompensateOrder(p, count - 1, world);
      } else {
        var o := world(p.tick);
        var next := Recorded(p, count - 1, o);
        if o.strike == NoStrike {
          CompensateOrder(next, count - 1, world);
          var stage := Compensate(next, count - 1, world);
          assert stage.p.undone[..|p.undone|] == next.undone[..|p.undone|] == p.undone;
          assert stage.p.undone[|p.undone|] == stage.p.undone[..|next.undone|][|p.undone|] == count - 1;
          assert next.steps[count - 1].undo.executed;
        }
      }
    }
  }

  // ---- the loop

  /** With stop-on-failure, compensations are recorded in strictly descending order, only for
      steps done before the failed one; a failure that was not cut short leaves none out. */
  ghost predicate UndoneRight(p: Progress, plan: Sequence)
    requires |p.steps| == |plan.steps|
  {
    plan.stopOnFailure ==>
      && Descending(p.undone)
      && (p.undone != [] ==> p.failedIndex.Some?)
      && (p.failedIndex.Some? ==> forall u :: u in p.undone ==> u < p.failedIndex.value)
      && (p.status in {PartialFailure, Failed} && plan.allowCompensation ==>
            && p.failedIndex.Some? && p.failedIndex.value < |plan.steps|
            && forall j :: 0 <= j < p.failedIndex.value && plan.steps[j].spec.compensation.Some? ==>
               p.steps[j].undo.executed)
  }

  ghost predicate AtHead(p: Progress, idx: nat, plan: Sequence, gate: Gate, world: World, start: nat) {
    && Traced(p, plan, gate, world, start) && idx <= |p.steps| && p.status == Success
    && (plan.stopOnFailure ==> p.undone == [] && p.failedIndex.None?)
    && Forwards(p.effects) <= AttemptLimit(plan.maxRetries) * idx
  }

  ghost predicate Bounded(p: Progress, plan: Sequence) {
    Forwards(p.effects) <= AttemptLimit(plan.maxRetries) * |plan.steps|
  }

  ghost predicate Closed(stage: Stage, plan: Sequence, gate: Gate, world: World, start: nat) {
    && Traced(stage.p, plan, gate, world, start) && Bounded(stage.p, plan)
    && (stage.Ran? ==> UndoneRight(stage.p, plan))
    && (stage.Ran? && plan.stopOnFailure && stage.p.status == Success ==> stage.p.failedIndex.None?)
    && (stage.Hit? ==> UndoneRight(stage.p.(status := Timeout), plan))
  }

  lemma TracedRelabel(p: Progress, steps: seq<Step>, plan: Sequence, gate: Gate, world: World, start: nat)
    requires Traced(p, plan, gate, world, start) && |steps| == |p.steps|
    requires forall j :: 0 <= j < |steps| ==> SamePlan(steps[j], p.steps[j]) && steps[j].undo == p.steps[j].undo
    ensures Traced(p.(steps := steps), plan, gate, world, start)
  {}

  lemma MulStep(l: nat, i: nat, n: nat)
    requires i < n
    ensures l * i + l == l * (i + 1) <= l * n
  {
    assert l * n == l * (i + 1) + l * (n - (i + 1));
  }

  lemma BoundStep(plan: Sequence, idx: nat)
    requires idx < |plan.steps|
    ensures AttemptLimit(plan.maxRetries) * idx + AttemptLimit(plan.maxRetries)
            == AttemptLimit(plan.maxRetries) * (idx + 1)
    ensures AttemptLimit(plan.maxRetries) * (idx + 1) <= AttemptLimit(plan.maxRetries) * |plan.steps|
  {
    MulStep(AttemptLimit(plan.maxRetries), idx, |plan.steps|);
  }

  lemma RecoverTrace(p: Progress, idx: nat, plan: Sequence, gate: Gate, world: World, start: nat)
    requires Traced(p, plan, gate, world, start) && idx < |p.steps| && p.failedIndex == Some(idx) && p.status == Success
    requires plan.stopOnFailure ==> p.undone == []
    requires Forwards(p.effects) <= AttemptLimit(plan.maxRetries) * (idx + 1)
    ensures MoveTraced(Recover(p, idx, plan, world), idx, plan, gate, world, start)
  {
    BoundStep(plan, idx);
    CompensateTrace(p, idx, world, plan, gate, start);
    CompensateOrder(p, idx, world);
    CompensateKeepsRest(p, idx, world);
    var undo := if plan.allowCompensation then Compensate(p, idx, world) else Ran(p);
    if undo.Ran? && plan.stopOnFailure {
      var steps := SetFrom(undo.p.steps, idx + 1, Skipped);
      TracedRelabel(undo.p, steps, plan, gate, world, start);
      assert Traced(undo.p.(status := Partial(undo.p.completed), steps := steps), plan, gate, world, start);
    }
  }

  lemma {:induction false} CompensateKeepsRest(p: Progress, count: nat, world: World)
    requires count <= |p.steps|
    ensures var stage := Compensate(p, count, world);
            stage.p == p.(steps := stage.p.steps, undone := stage.p.undone, effects := stage.p.effects,
              tick := stage.p.tick)
    decreases count
  {
    if count > 0 {
      var prev := p.steps[count - 1];
      CompensateKeepsRest(p, count - 1, world);
      CompensateKeepsRest(Recorded(p, count - 1, world(p.tick)), count - 1, world);
    }
  }

  lemma {:induction false} AttemptsKeepPlan(idx: nat, step: Step, attempt: nat, limit: nat, last: Option<ErrorCode>,
                                            world: World, effects: seq<Effect>, tick: nat)
    ensures var end := Attempts(idx, step, attempt, limit, last, world, effects, tick);
            SamePlan(end.step, step) && end.step.undo == step.undo
    decreases limit - attempt
  {
    if attempt < limit {
      var t := Attempt(idx, step, attempt + 1 < limit, last, world, effects, tick);
      if t.Again? {
        AttemptsKeepPlan(idx, t.step, attempt + 1, limit, t.error, world, t.effects, t.tick);
      }
    }
  }

  /** What a turn from `idx` leaves. */
  ghost predicate MoveTraced(move: Move, idx: nat, plan: Sequence, gate: Gate, world: World, start: nat) {
    match move
    case Proceed(q) => AtHead(q, idx + 1, plan, gate, world, start)
    case Halt(stage) => Closed(stage, plan, gate, world, start)
  }

  lemma CancelTrace(p: Progress, idx: nat, plan: Sequence, gate: Gate, world: World, start: nat)
    requires AtHead(p, idx, plan, gate, world, start) && idx < |p.steps|
    ensures Closed(Ran(CancelFrom(Answered(p), idx)), plan, gate, world, start)
  {
    BoundStep(plan, idx);
    assert Traced(Answered(p), plan, gate, world, start);
    TracedRelabel(Answered(p), SetFrom(p.steps, idx, Cancelled), plan, gate, world, start);
    assert Traced(CancelFrom(Answered(p), idx), plan, gate, world, start);
  }

  lemma DenyTrace(p: Progress, idx: nat, plan: Sequence, gate: Gate, world: World, start: nat)
    requires AtHead(p, idx, plan, gate, world, start) && idx < |p.steps|
    ensures Closed(Ran(Deny(Answered(p), idx)), plan, gate, world, start)
  {
    BoundStep(plan, idx);
    assert Traced(Answered(p), plan, gate, world, start);
    TracedRelabel(Answered(p), Deny(Answered(p), idx).steps, plan, gate, world, start);
    assert Traced(Deny(Answered(p), idx), plan, gate, world, start);
  }

  /** The attempts at a step keep the ledger and the step. */
  lemma AttemptsAtLedger(p: Progress, idx: nat, plan: Sequence, gate: Gate, world: World, start: nat)
    requires AtHead(p, idx, plan, gate, world, start) && idx < |p.steps|
    requires Gated(p.steps[idx].spec) ==> Allowed(p.steps[idx].spec, gate, world(p.tick))
    ensures var end := AttemptsAt(p, idx, plan, world);
            && SamePlan(end.step, p.steps[idx]) && end.step.undo == p.steps[idx].undo
            && Ledger(end.effects, plan, gate, world, start, end.tick)
            && Forwards(end.effects) <= Forwards(p.effects) + AttemptLimit(plan.maxRetries)
  {
    var begun, limit := p.steps[idx].(status := Executing), AttemptLimit(plan.maxRetries);
    assert Cleared(idx, plan, gate, world, start, p.tick + 1);
    assert Ledger(p.effects, plan, gate, world, start, p.tick + 1);
    AttemptsLedger(idx, begun, 0, limit, None, world, p.effects, p.tick + 1, plan, gate, start);
    AttemptsKeepPlan(idx, begun, 0, limit, None, world, p.effects, p.tick + 1);
  }

  lemma AttemptingTrace(p: Progress, idx: nat, plan: Sequence, gate: Gate, world: World, start: nat)
    requires AtHead(p, idx, plan, gate, world, start) && idx < |p.steps|
    requires Gated(p.steps[idx].spec) ==> Allowed(p.steps[idx].spec, gate, world(p.tick))
    ensures MoveTraced(Tackle(p, idx, plan, world), idx, plan, gate, world, start)
  {
    AttemptsAtLedger(p, idx, plan, gate, world, start);
    AttemptedTrace(p, idx, plan, AttemptsAt(p, idx, plan, world), gate, world, start);
  }

  lemma LetInTrace(p: Progress, idx: nat, plan: Sequence, gate: Gate, world: World, start: nat)
    requires AtHead(p, idx, plan, gate, world, start) && idx < |p.steps|
    requires !world(p.tick).cancel && (Gated(p.steps[idx].spec) ==> Allowed(p.steps[idx].spec, gate, world(p.tick)))
    ensures MoveTraced(Turn(p, idx, plan, gate, world), idx, plan, gate, world, start)
  {
    AttemptingTrace(p, idx, plan, gate, world, start);
  }

  lemma KeptOutTrace(p: Progress, idx: nat, plan: Sequence, gate: Gate, world: World, start: nat)
    requires AtHead(p, idx, plan, gate, world, start) && idx < |p.steps|
    requires world(p.tick).cancel || (Gated(p.steps[idx].spec) && !Allowed(p.steps[idx].spec, gate, world(p.tick)))
    ensures MoveTraced(Turn(p, idx, plan, gate, world), idx, plan, gate, world, start)
  {
    if world(p.tick).cancel {
      CancelTrace(p, idx, plan, gate, world, start);
    } else {
      DenyTrace(p, idx, plan, gate, world, start);
    }
  }

  lemma TurnTrace(p: Progress, idx: nat, plan: Sequence, gate: Gate, world: World, start: nat)
    requires AtHead(p, idx, plan, gate, world, start) && idx < |p.steps|
    ensures MoveTraced(Turn(p, idx, plan, gate, world), idx, plan, gate, world, start)
  {
    if world(p.tick).cancel || (Gated(p.steps[idx].spec) && !Allowed(p.steps[idx].spec, gate, world(p.tick))) {
      KeptOutTrace(p, idx, plan, gate, world, start);
    } else {
      LetInTrace(p, idx, plan, gate, world, start);
    }
  }

  lemma AttemptedTrace(p: Progress, idx: nat, plan: Sequence, end: AttemptEnd, gate: Gate, world: World, start: nat)
    requires AtHead(p, idx, plan, gate, world, start) && idx < |p.steps|
    requires SamePlan(end.step, p.steps[idx]) && end.step.undo == p.steps[idx].undo
    requires Ledger(end.effects, plan, gate, world, start, end.tick)
    requires Forwards(end.effects) <= Forwards(p.effects) + AttemptLimit(plan.maxRetries)
    ensures MoveTraced(AfterAttempts(p, idx, plan, end, world), idx, plan, gate, world, start)
  {
    BoundStep(plan, idx);
    var acted := Acted(p, end.effects, end.tick);
    assert Traced(acted, plan, gate, world, start);
    TracedRelabel(acted, p.steps[idx := end.step], plan, gate, world, start);
    if end.GaveUp? {
      var recorded := Fail(acted, idx, end.step, end.error);
      TracedRelabel(acted, recorded.steps, plan, gate, world, start);
      assert Traced(recorded, plan, gate, world, start);
      RecoverTrace(recorded, idx, plan, gate, world, start);
    }
  }

  lemma {:induction false} StepLoopTrace(p: Progress, idx: nat, plan: Sequence, gate: Gate, world: World, start: nat)
    requires AtHead(p, idx, plan, gate, world, start)
    ensures Closed(StepLoop(p, idx, plan, gate, world), plan, gate, world, start)
    decreases |p.steps| - idx
  {
    if idx < |p.steps| {
      TurnTrace(p, idx, plan, gate, world, start);
      TurnLength(p, idx, plan, gate, world);
      var move := Turn(p, idx, plan, gate, world);
      if move.Proceed? {
        StepLoopTrace(move.p, idx + 1, plan, gate, world, start);
      }
    }
  }

  lemma StartTraced(plan: Sequence, gate: Gate, world: World, tick: nat)
    ensures AtHead(Start(plan, tick), 0, plan, gate, world, tick)
  {}

  /** Every actuation of a run is licensed, the run ends no earlier than it started, and at most one
      actuation and one for each retry are made per step. */
  lemma ExecutionIsLicensed(plan: Sequence, gate: Gate, world: World, tick: nat)
    ensures var out := Execute(plan, gate, world, tick);
            var effects := if out.Returned? then out.result.effects else out.effects;
            var end := if out.Returned? then out.result.tick else out.tick;
            && Ledger(effects, plan, gate, world, tick, end)
            && Forwards(effects) <= (if plan.maxRetries + 1 > 1 then plan.maxRetries + 1 else 1) * |plan.steps|
  {
    StartTraced(plan, gate, world, tick);
    StepLoopTrace(Start(plan, tick), 0, plan, gate, world, tick);
  }

  lemma RanRecorded(p: Progress, plan: Sequence, gate: Gate, world: World, start: nat)
    requires Closed(Ran(p), plan, gate, world, start)
    requires Pointed(Conclude(p), plan) && (Conclude(p).status in {PartialFailure, Failed} ==> p.failedIndex.Some?)
    ensures Undos(Conclude(p), plan) && UndoneRight(Conclude(p), plan)
  {}

  lemma HitRecorded(p: Progress, plan: Sequence, gate: Gate, world: World, start: nat)
    requires Closed(Hit(SequenceDeadline, p), plan, gate, world, start)
    ensures var r := p.(status := Timeout, error := Some(TimeoutError), steps := ExpireAll(p.steps));
            Undos(r, plan) && UndoneRight(r, plan)
  {
    var steps := ExpireAll(p.steps);
    assert forall j :: 0 <= j < |steps| ==> SamePlan(steps[j], p.steps[j]) && steps[j].undo == p.steps[j].undo;
    assert Undos(p, plan) && UndoneRight(p.(status := Timeout), plan);
  }

  lemma StageRecorded(stage: Stage, plan: Sequence, gate: Gate, world: World, start: nat)
    requires Closed(stage, plan, gate, world, start)
    requires Finish(stage).Returned? ==> Settled(Finish(stage).result, plan)
    ensures Finish(stage).Returned? ==> Undos(Finish(stage).result, plan) && UndoneRight(Finish(stage).result, plan)
  {
    match stage
    case Ran(q) => RanRecorded(q, plan, gate, world, start);
    case Hit(strike, q) =>
      if strike == SequenceDeadline {
        HitRecorded(q, plan, gate, world, start);
      }
  }

  /** A result records exactly the compensations that ran, each once and never one that had
      run before; see UndoneRight for their order. */
  lemma CompensationsAreRecorded(plan: Sequence, gate: Gate, world: World, tick: nat)
    ensures var out := Execute(plan, gate, world, tick);
            out.Returned? ==> Undos(out.result, plan) && UndoneRight(out.result, plan)
  {
    StartTraced(plan, gate, world, tick);
    StepLoopTrace(Start(plan, tick), 0, plan, gate, world, tick);
    ExecutionIsTruthful(plan, gate, world, tick);
    StageRecorded(StepLoop(Start(plan, tick), 0, plan, gate, world), plan, gate, world, tick);
  }
}
