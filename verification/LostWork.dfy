/** What becomes of the steps a task completed when the task does not end well: which of them an
    abort still sees. */
module LostWork {
  import opened Domain
  import opened SequenceSpec
  import opened SequenceFacts
  import opened SequenceTrace
  import opened CompositeTask
  import opened CompositeTaskFacts
  import opened CompositeTaskSafety
  import opened GoalFacts
  import opened Schedules
  import opened TaskOutcomes
  import opened UndoEffects
  import opened LastRun
  import opened WonSteps

  // ---- what the last run completed

  /** The steps as the last run had them when it ended, written back or not. */
  function LastSteps(from: TaskState, world: World): seq<Step> {
    StepLoop(Start(from.plan, from.tick), 0, from.plan, NoEvaluator, world).p.steps
  }

  predicate FinishedLast(from: TaskState, world: World, j: nat) {
    j < |LastSteps(from, world)| && Done(LastSteps(from, world)[j])
  }

  lemma StageSplits(stage: Stage, plan: Sequence)
    requires plan.stopOnFailure && StageOk(stage, plan)
    ensures Kept(stage.p.steps, plan) && DoneSplit(stage.p.steps)
  {
    match stage
    case Ran(p) =>
      var k := DoneUpTo(SequenceSpec.Conclude(p), plan);
      assert SplitAt(p.steps, k);
    case Hit(_, p) =>
      var at: nat :| Caught(p, at, plan);
      assert SplitAt(p.steps, at);
  }

  /** The last run completed its steps up to some one, and they are those of its plan. */
  lemma LastStepsSplit(from: TaskState, world: World)
    requires from.plan.stopOnFailure
    ensures Kept(LastSteps(from, world), from.plan) && DoneSplit(LastSteps(from, world))
    ensures GateKept(LastSteps(from, world))
  {
    var p := Start(from.plan, from.tick);
    CountBound(p.steps, Done);
    CountBound(p.steps, IsVerified);
    assert Underway(p, 0, from.plan);
    StepLoopFacts(p, 0, from.plan, NoEvaluator, world);
    StageSplits(StepLoop(p, 0, from.plan, NoEvaluator, world), from.plan);
    StepLoopGate(p, 0, from.plan, world);
  }

  /** It completed those that its answers let win. */
  lemma FinishedExactly(from: TaskState, world: World, j: nat)
    requires from.plan.stopOnFailure
    ensures FinishedLast(from, world, j) <==> WonAt(from.plan, world, from.tick, j).Some?
  {
    if j < |from.plan.steps| {
      RunWinsExactly(from.plan, world, from.tick, j);
    } else {
      LastStepsSplit(from, world);
    }
  }

  /** A result tells which steps were completed. */
  lemma ReturnedTells(from: TaskState, world: World, j: nat)
    requires Execute(from.plan, NoEvaluator, world, from.tick).Returned?
    ensures var r := Execute(from.plan, NoEvaluator, world, from.tick).result;
            |r.steps| == |LastSteps(from, world)|
            && (j < |r.steps| ==> (Done(r.steps[j]) <==> FinishedLast(from, world, j)))
  {}

  // ---- what an abort sees of it

  /** The step with this identity is in memory and accepted: an abort visits it. */
  predicate Visible(steps: seq<Step>, root: StepId) {
    exists j :: 0 <= j < |steps| && steps[j].accepted && Root(steps[j].id) == root
  }

  /** The log has the step with this identity as completed. */
  predicate InLog(actions: seq<ActionRecord>, root: StepId) {
    exists a :: 0 <= a < |Completed(actions)| && Root(Completed(actions)[a].id) == root
  }

  /** The task completed the step with this identity: its log says so, or its last run did. */
  ghost predicate CompletedBy(run: TaskRun, from: TaskState, world: World, root: StepId) {
    || InLog(run.state.actions, root)
    || exists j: nat :: FinishedLast(from, world, j) && j < |from.plan.steps| && !Injected(from.plan.steps[j].id)
                        && Root(from.plan.steps[j].id) == root
  }

  /** Every answer that wins a step of its own for the last run also accepts its actuation. Of a run
      that an enclosing deadline tears down nothing is written back: there the step must have been
      accepted before. */
  ghost predicate WinsAccepted(run: TaskRun, from: TaskState, world: World) {
    forall j: nat ::
      var won := WonAt(from.plan, world, from.tick, j);
      won.Some? && !Injected(from.plan.steps[j].id) ==>
        if run.end == TornDown then from.plan.steps[j].accepted else world(won.value).accepted
  }

  /** Whether memory has a step that the last run won as accepted. */
  lemma KeptAccepted(run: TaskRun, from: TaskState, world: World, j: nat)
    requires LeftBy(run, from, world) && WonAt(from.plan, world, from.tick, j).Some?
    ensures j < |run.state.plan.steps| == |from.plan.steps|
    ensures run.state.plan.steps[j].accepted <==>
              if run.end == TornDown then from.plan.steps[j].accepted
              else world(WonAt(from.plan, world, from.tick, j).value).accepted
  {
    RunWinsExactly(from.plan, world, from.tick, j);
  }

  lemma InLogConcat(a: seq<ActionRecord>, b: seq<ActionRecord>, root: StepId)
    ensures InLog(a + b, root) <==> InLog(a, root) || InLog(b, root)
  {
    CompletedConcat(a, b);
    var x, y := Completed(a), Completed(b);
    if InLog(a, root) {
      var i :| 0 <= i < |x| && Root(x[i].id) == root;
      assert (x + y)[i] == x[i];
    }
    if InLog(b, root) {
      var i :| 0 <= i < |y| && Root(y[i].id) == root;
      assert (x + y)[|x| + i] == y[i];
    }
  }

  /** The entries of one run are its completed steps. */
  lemma {:induction false} RecordsTell(steps: seq<Step>, root: StepId)
    ensures InLog(Records(steps), root) <==>
            exists j :: 0 <= j < |steps| && Done(steps[j]) && !Injected(steps[j].id) && Root(steps[j].id) == root
  {
    if steps != [] {
      RecordsTell(steps[1..], root);
      var head := Records(steps)[0];
      assert Records(steps)[1..] == Records(steps[1..]) && Records(steps) == [head] + Records(steps[1..]);
      InLogConcat([head], Records(steps[1..]), root);
      assert Completed([head]) == if DoneRecord(head) && !Injected(head.id) then [head] else [];
    }
  }

  /** What was completed before the last replan is out of the abort's sight. */
  lemma BeforeIsInvisible(from: TaskState, whole: seq<Piece>, steps: seq<Step>, root: StepId)
    requires UndoBalance(from, whole) && |steps| == |from.plan.steps|
    requires forall j :: 0 <= j < |steps| ==> steps[j].id == from.plan.steps[j].id
    requires InLog(from.actions, root)
    ensures !Visible(steps, root)
  {
    StillIdentified(from, whole);
    var done := Completed(from.actions);
    var a :| 0 <= a < |done| && Root(done[a].id) == root;
    var before := RootsOf(CompletedPieces(from.actions));
    assert before[a] == root;
    forall j | 0 <= j < |steps| ensures Root(steps[j].id) != root {
      if Injected(steps[j].id) {
        CompletedRoot(from.actions, root);
      } else {
        PieceRoot(from.plan.steps, j);
        ApartRoots(before, RootsOf(Pieces(from.plan.steps)), root, Root(steps[j].id));
      }
    }
  }

  /** A step's identity stands for it. */
  lemma VisibleAt(steps: seq<Step>, from: TaskState, whole: seq<Piece>, j: nat)
    requires UndoBalance(from, whole) && |steps| == |from.plan.steps| && j < |steps| && !Injected(steps[j].id)
    requires forall i :: 0 <= i < |steps| ==> steps[i].id == from.plan.steps[i].id
    ensures Visible(steps, Root(steps[j].id)) <==> steps[j].accepted
  {
    StillIdentified(from, whole);
    var root := Root(steps[j].id);
    if Visible(steps, root) {
      var i :| 0 <= i < |steps| && steps[i].accepted && Root(steps[i].id) == root;
      if i < j {
        PiecesInject(from.plan.steps, i, j);
      } else if j < i {
        PiecesInject(from.plan.steps, j, i);
      }
    }
  }

  /** What a task's log holds: the entries of earlier runs and those of a last run that returned. */
  lemma LogTells(run: TaskRun, from: TaskState, world: World, root: StepId)
    requires LeftBy(run, from, world)
    ensures CompletedBy(run, from, world, root) <==>
            InLog(from.actions, root)
            || exists j: nat :: (FinishedLast(from, world, j) && j < |from.plan.steps|
                                 && !Injected(from.plan.steps[j].id)
                                 && Root(from.plan.steps[j].id) == root)
  {
    LastStepsSplit(from, world);
    var out := Execute(from.plan, NoEvaluator, world, from.tick);
    if out.Returned? {
      var steps := out.result.steps;
      InLogConcat(from.actions, Records(steps), root);
      RecordsTell(steps, root);
      forall j: nat | j < |steps|
        ensures Done(steps[j]) <==> FinishedLast(from, world, j)
        ensures steps[j].id == from.plan.steps[j].id
      {
        ReturnedTells(from, world, j);
      }
    }
  }

  lemma SameIds(run: TaskRun, from: TaskState, world: World)
    requires LeftBy(run, from, world)
    ensures |run.state.plan.steps| == |from.plan.steps|
    ensures forall j :: 0 <= j < |from.plan.steps| ==> SamePlan(run.state.plan.steps[j], from.plan.steps[j])
  {
    CompensationsAreRecorded(from.plan, NoEvaluator, world, from.tick);
  }

  /** An abort sees every step the task completed exactly when none was completed before the last
      replan, and every answer that won a step for the last run accepted its actuation; a verdict of
      TRUE completes a step without that. After a run that an enclosing deadline tore down it sees
      what had been accepted before. */
  lemma WorkSeenExactly(plan: Sequence, world: World, tick: nat)
    requires plan.stopOnFailure && WellIdentified(plan.steps)
    ensures var run, from := RunTask(plan, world, tick), LastStartOf(plan, world, tick);
            (forall root :: CompletedBy(run, from, world, root) ==> Visible(run.state.plan.steps, root)) <==>
            Completed(from.actions) == [] && WinsAccepted(run, from, world)
  {
    var run, from, whole := RunTask(plan, world, tick), LastStartOf(plan, world, tick), Pieces(plan.steps);
    LastRunOf(plan, world, tick);
    SameIds(run, from, world);
    var steps := run.state.plan.steps;
    if forall root :: CompletedBy(run, from, world, root) ==> Visible(steps, root) {
      SeenThenOnlyLast(run, from, world, whole);
    }
    if Completed(from.actions) == [] && WinsAccepted(run, from, world) {
      forall root | CompletedBy(run, from, world, root) ensures Visible(steps, root) {
        LogTells(run, from, world, root);
        var j: nat :| FinishedLast(from, world, j) && j < |from.plan.steps| && !Injected(from.plan.steps[j].id)
                      && Root(from.plan.steps[j].id) == root;
        FinishedExactly(from, world, j);
        KeptAccepted(run, from, world, j);
        assert steps[j].accepted;
      }
    }
  }

  lemma SeenThenOnlyLast(run: TaskRun, from: TaskState, world: World, whole: seq<Piece>)
    requires LeftBy(run, from, world) && UndoBalance(from, whole)
    requires forall root :: CompletedBy(run, from, world, root) ==> Visible(run.state.plan.steps, root)
    ensures Completed(from.actions) == [] && WinsAccepted(run, from, world)
  {
    SameIds(run, from, world);
    var steps, done := run.state.plan.steps, Completed(from.actions);
    if done != [] {
      var root := Root(done[0].id);
      assert InLog(from.actions, root);
      LogTells(run, from, world, root);
      BeforeIsInvisible(from, whole, steps, root);
      assert false;
    }
    forall j: nat | WonAt(from.plan, world, from.tick, j).Some? && !Injected(from.plan.steps[j].id)
      ensures if run.end == TornDown then from.plan.steps[j].accepted
              else world(WonAt(from.plan, world, from.tick, j).value).accepted
    {
      FinishedExactly(from, world, j);
      KeptAccepted(run, from, world, j);
      assert CompletedBy(run, from, world, Root(from.plan.steps[j].id));
      VisibleAt(steps, from, whole, j);
    }
  }

  // ---- reachable

  /** For a run that starts at `start`: everything works up to the attempt at step `at`, which
      fails; from then on every attempt fails, with a tool's "TIMEOUT" code. */
  function FailingFrom(start: nat, at: nat): World {
    t => if t < start + 2 * at + 1 then Good
         else if t == start + 2 * at + 1 then Bad
         else Bad.(error := Some(ToolError("TIMEOUT")))
  }

  /** The first run in such a world. */
  ghost predicate FailedFirst(out: Outcome, plan: Sequence, at: nat) {
    && out.Returned?
    && var r := out.result;
       && |r.steps| == |plan.steps| && at < |r.steps| && r.status in {PartialFailure, Failed}
       && r.failedIndex == Some(at) && r.error == Some(VerificationError)
       && (forall j :: 0 <= j < |r.steps| ==> SamePlan(plan.steps[j], r.steps[j]))
       && (forall j :: 0 <= j < at ==> IsVerified(r.steps[j]))
  }

  lemma FirstRunFails(plan: Sequence, start: nat, at: nat)
    requires plan.stopOnFailure && ClearFrom(plan.steps, 0) && at < |plan.steps|
    ensures var world := FailingFrom(start, at);
            var out := Execute(plan, NoEvaluator, world, start);
            FailedFirst(out, plan, at) && out.result.tick >= start + 2 * at + 2
  {
    var world := FailingFrom(start, at);
    var q := GoodPrefix(Start(plan, start), 0, at, plan, world);
    BadTurnHalts(q, at, plan, None, world);
    StepLoopUnfolds(q, at, plan, NoEvaluator, world);
  }

  lemma SecondRunStops(s: TaskState, world: World)
    requires s.plan.stopOnFailure && ClearFrom(s.plan.steps, 0) && s.plan.steps != []
    requires forall t: nat :: s.tick <= t ==> world(t) == Bad.(error := Some(ToolError("TIMEOUT")))
    ensures var out := Execute(s.plan, NoEvaluator, world, s.tick);
            out.Returned? && React(s, out.result, world).Stop? && React(s, out.result, world).run.end.TaskFails?
  {
    var p := Start(s.plan, s.tick);
    BadTurnHalts(p, 0, s.plan, Some(ToolError("TIMEOUT")), world);
    StepLoopUnfolds(p, 0, s.plan, NoEvaluator, world);
    StopsOnTimeout(s, Execute(s.plan, NoEvaluator, world, s.tick).result, world);
  }

  /** The state from which the second run starts, and the end of the task. */
  lemma FailsTwice(plan: Sequence, start: nat, at: nat)
    requires plan.stopOnFailure && ClearFrom(plan.steps, 0) && at < |plan.steps|
    ensures var world := FailingFrom(start, at);
            var out, from := Execute(plan, NoEvaluator, world, start), LastStartOf(plan, world, start);
            && FailedFirst(out, plan, at)
            && from.actions == Records(out.result.steps) && RunTask(plan, world, start).end.TaskFails?
  {
    var world := FailingFrom(start, at);
    FirstRunFails(plan, start, at);
    var s, r := Begin(plan, start), Execute(plan, NoEvaluator, world, start).result;
    RetryReacts(s, r, at, world);
    ReactShape(s, r, world);
    RunTaskIsLoop(plan, world, start);
    LoopFollows(s, r, world);
    LastStartUnfolds(s, r, world);
    var next := React(s, r, world).state;
    ReplanKeepsPieces(Logged(s, r).plan, at);
    ReplanClear(Logged(s, r).plan, at);
    SecondRunStops(next, world);
    var r2 := Execute(next.plan, NoEvaluator, world, next.tick).result;
    LoopFollows(next, r2, world);
    LastStartUnfolds(next, r2, world);
    assert [] + Records(r.steps) == Records(r.steps);
  }

  /** For every clear plan and every step of its own before some later one: in some world the task
      fails with that step verified in its log, and no abort can see it any more. */
  lemma VerifiedStepDisappears(plan: Sequence, start: nat, at: nat, j: nat)
    requires plan.stopOnFailure && ClearFrom(plan.steps, 0) && WellIdentified(plan.steps)
    requires j < at < |plan.steps| && !Injected(plan.steps[j].id)
    ensures var world := FailingFrom(start, at);
            var run, root := RunTask(plan, world, start), Root(plan.steps[j].id);
            && run.end.TaskFails? && InLog(run.state.actions, root) && !Visible(run.state.plan.steps, root)
  {
    var world, root := FailingFrom(start, at), Root(plan.steps[j].id);
    FailsTwice(plan, start, at);
    LastRunOf(plan, world, start);
    var run, from := RunTask(plan, world, start), LastStartOf(plan, world, start);
    var r := Execute(plan, NoEvaluator, world, start).result;
    RecordsTell(r.steps, root);
    assert Done(r.steps[j]) && SamePlan(plan.steps[j], r.steps[j]);
    SameIds(run, from, world);
    BeforeIsInvisible(from, Pieces(plan.steps), run.state.plan.steps, root);
    LogGrows(run, from, world, root);
  }

  lemma LogGrows(run: TaskRun, from: TaskState, world: World, root: StepId)
    requires LeftBy(run, from, world) && InLog(from.actions, root)
    ensures InLog(run.state.actions, root)
  {
    var out := Execute(from.plan, NoEvaluator, world, from.tick);
    if out.Returned? {
      InLogConcat(from.actions, Records(out.result.steps), root);
    }
  }

  /** For a run that starts at `start`: everything works, but the verdict on step `j` is TRUE without
      its actuation being accepted, and the attempt at step `at` fails with a tool's "TIMEOUT" code. */
  function UnacceptedAt(start: nat, j: nat, at: nat): World {
    t => if t == start + 2 * j + 1 then Good.(accepted := false)
         else if t == start + 2 * at + 1 then Bad.(error := Some(ToolError("TIMEOUT")))
         else Good
  }

  lemma UnacceptedTurn(p: Progress, idx: nat, plan: Sequence, world: World)
    requires idx < |p.steps| && Clear(p.steps[idx].spec)
    requires world(p.tick) == Good && world(p.tick + 1) == Good.(accepted := false)
    ensures var move := Turn(p, idx, plan, NoEvaluator, world);
            && move.Proceed? && Onward(p, move.p) && move.p.tick == p.tick + 2
            && IsVerified(move.p.steps[idx]) && !move.p.steps[idx].accepted
  {
    AttemptsUnfold(idx, p.steps[idx].(status := Executing), 0, AttemptLimit(plan.maxRetries), None, world, p.effects,
                   p.tick + 1);
  }

  /** The result of such a run. */
  ghost predicate KeptUnaccepted(out: Outcome, plan: Sequence, j: nat, world: World) {
    && out.Returned?
    && var r := out.result;
       && |r.steps| == |plan.steps| && j < |r.steps| && r.status in {PartialFailure, Failed}
       && r.error == Some(ToolError("TIMEOUT")) && !world(r.tick).cancel
       && (forall i :: 0 <= i < |r.steps| ==> SamePlan(plan.steps[i], r.steps[i]))
       && IsVerified(r.steps[j]) && !r.steps[j].accepted
  }

  /** The loop head at step `at` in such a run. */
  ghost predicate UnacceptedAhead(plan: Sequence, start: nat, at: nat, j: nat, q: Progress) {
    && |q.steps| == |plan.steps| && j < at < |q.steps| && q.tick == start + 2 * at
    && (forall i :: 0 <= i < |q.steps| ==> SamePlan(plan.steps[i], q.steps[i]))
    && IsVerified(q.steps[j]) && !q.steps[j].accepted
  }

  lemma UnacceptedPrefix(plan: Sequence, start: nat, at: nat, j: nat) returns (q: Progress)
    requires ClearFrom(plan.steps, 0) && j < at < |plan.steps|
    ensures var world := UnacceptedAt(start, j, at);
            && UnacceptedAhead(plan, start, at, j, q)
            && StepLoop(Start(plan, start), 0, plan, NoEvaluator, world) == StepLoop(q, at, plan, NoEvaluator, world)
  {
    var world := UnacceptedAt(start, j, at);
    var p := GoodPrefix(Start(plan, start), 0, j, plan, world);
    UnacceptedTurn(p, j, plan, world);
    StepLoopUnfolds(p, j, plan, NoEvaluator, world);
    q := GoodPrefix(Turn(p, j, plan, NoEvaluator, world).p, j + 1, at, plan, world);
  }

  lemma UnacceptedRun(plan: Sequence, start: nat, at: nat, j: nat)
    requires plan.stopOnFailure && ClearFrom(plan.steps, 0) && j < at < |plan.steps|
    ensures var world := UnacceptedAt(start, j, at);
            KeptUnaccepted(Execute(plan, NoEvaluator, world, start), plan, j, world)
  {
    var world := UnacceptedAt(start, j, at);
    var q := UnacceptedPrefix(plan, start, at, j);
    BadTurnHalts(q, at, plan, Some(ToolError("TIMEOUT")), world);
    StepLoopUnfolds(q, at, plan, NoEvaluator, world);
  }

  /** For every clear plan and every step of its own before some later one: in some world the task's
      only run fails, memory holds that step as verified, and yet no abort can see it, because its
      actuation was never accepted. */
  lemma UnacceptedStepIsUnseen(plan: Sequence, start: nat, at: nat, j: nat)
    requires plan.stopOnFailure && ClearFrom(plan.steps, 0) && WellIdentified(plan.steps)
    requires j < at < |plan.steps| && !Injected(plan.steps[j].id)
    ensures var world := UnacceptedAt(start, j, at);
            var run, root := RunTask(plan, world, start), Root(plan.steps[j].id);
            && run.end.TaskFails? && run.state.runs == 1 && InLog(run.state.actions, root)
            && j < |run.state.plan.steps| && IsVerified(run.state.plan.steps[j])
            && Root(run.state.plan.steps[j].id) == root && !Visible(run.state.plan.steps, root)
  {
    var world, root := UnacceptedAt(start, j, at), Root(plan.steps[j].id);
    UnacceptedRun(plan, start, at, j);
    var s, r := Begin(plan, start), Execute(plan, NoEvaluator, world, start).result;
    StopsOnTimeout(s, r, world);
    RunTaskIsLoop(plan, world, start);
    LoopFollows(s, r, world);
    BeginBalance(plan, start);
    assert SamePlan(plan.steps[j], r.steps[j]);
    VisibleAt(r.steps, s, Pieces(plan.steps), j);
    RecordsTell(r.steps, root);
    assert [] + Records(r.steps) == Records(r.steps);
  }
}
