/** What a task's memory, log and effects owe to its last sequence run. */
module LastRun {
  import opened Domain
  import opened SequenceSpec
  import opened SequenceTrace
  import opened CompositeTask
  import opened CompositeTaskFacts
  import opened CompositeTaskSafety
  import opened UndoEffects
  import opened UndoOutcome
  import opened SequenceFacts
  import TaskOutcomes
  import Compiler
  import Recovery

  /** The state from which the last run of the task loop starts. */
  function LastStart(s: TaskState, world: World): TaskState
    requires s.replans <= MaxReplans
    decreases MaxReplans - s.replans, 1
  {
    match Execute(s.plan, NoEvaluator, world, s.tick)
    case Raised(_, _) => s
    case Returned(r) => StartBehind(s, r, world)
  }

  /** From which it starts when the run from `s` returned `r`. */
  function StartBehind(s: TaskState, r: Progress, world: World): TaskState
    requires s.replans <= MaxReplans
    decreases MaxReplans - s.replans, 0
  {
    ReactShape(s, r, world);
    match React(s, r, world)
    case Stop(_) => s
    case Rerun(next) => LastStart(next, world)
  }

  lemma LastStartUnfolds(s: TaskState, r: Progress, world: World)
    requires s.replans <= MaxReplans && Execute(s.plan, NoEvaluator, world, s.tick) == Returned(r)
    ensures React(s, r, world).Stop? ==> LastStart(s, world) == s
    ensures React(s, r, world).Rerun? ==>
              React(s, r, world).state.replans <= MaxReplans
              && LastStart(s, world) == LastStart(React(s, r, world).state, world)
  {
    ReactShape(s, r, world);
    assert LastStart(s, world) == StartBehind(s, r, world);
  }

  /** The start of the last run of a task whose plan is handed over at `tick`. */
  function LastStartOf(plan: Sequence, world: World, tick: nat): TaskState { LastStart(Begin(plan, tick), world) }

  /** What the run from `from` left: its steps and its entries if it returned, nothing if an
      enclosing deadline tore it down; its effects in either case. */
  ghost predicate LeftBy(run: TaskRun, from: TaskState, world: World) {
    && from.plan.stopOnFailure
    && var out := Execute(from.plan, NoEvaluator, world, from.tick);
       && run.state.effects == from.effects + EffectsOf(out)
       && (out.Raised? <==> run.end == TornDown)
       && (out.Raised? ==> run.state.plan == from.plan && run.state.actions == from.actions)
       && (out.Returned? ==>
             && |out.result.steps| == |from.plan.steps|
             && run.state.plan == from.plan.(steps := out.result.steps)
             && run.state.actions == from.actions + Records(out.result.steps)
             && (out.result.status == Success <==> run.end == TaskSucceeded))
  }

  lemma StoppedLeaves(s: TaskState, r: Progress, world: World)
    requires s.plan.stopOnFailure && Execute(s.plan, NoEvaluator, world, s.tick) == Returned(r)
    requires React(s, r, world).Stop?
    ensures LeftBy(React(s, r, world).run, s, world)
  {
    ReactShape(s, r, world);
    var k := RunSplit(s.plan, world, s.tick);
  }

  lemma {:induction false} LastRunLeaves(s: TaskState, world: World, whole: seq<Piece>)
    requires s.replans <= MaxReplans && UndoBalance(s, whole)
    ensures var from := LastStart(s, world);
            && UndoBalance(from, whole) && LeftBy(Loop(s, world), from, world)
            && from.plan.allowCompensation == s.plan.allowCompensation
    decreases MaxReplans - s.replans
  {
    var out := Execute(s.plan, NoEvaluator, world, s.tick);
    if out.Returned? {
      var r := out.result;
      var high := RunUndoLog(s.plan, world, s.tick);
      var k := RunSplit(s.plan, world, s.tick);
      ReactShape(s, r, world);
      LoopFollows(s, r, world);
      LastStartUnfolds(s, r, world);
      if React(s, r, world).Rerun? {
        RerunBalance(s, r, k, world, whole);
        LastRunLeaves(React(s, r, world).state, world, whole);
      } else {
        StoppedLeaves(s, r, world);
      }
    }
  }

  /** Some compensation the task carried out is of the step with this identity. */
  predicate Undone(effects: seq<Effect>, root: StepId) {
    exists a :: 0 <= a < |effects| && effects[a].Undo? && Root(effects[a].id) == root
  }

  lemma UndoneIn(a: seq<Effect>, b: seq<Effect>, root: StepId)
    ensures Undone(a + b, root) <==> Undone(a, root) || Undone(b, root)
  {
    var all := a + b;
    if Undone(a, root) {
      var i :| 0 <= i < |a| && a[i].Undo? && Root(a[i].id) == root;
      assert all[i] == a[i];
    }
    if Undone(b, root) {
      var i :| 0 <= i < |b| && b[i].Undo? && Root(b[i].id) == root;
      assert all[|a| + i] == b[i];
    }
  }

  /** A compensation that a result newly records was carried out. */
  lemma RecordedIsUndone(plan: Sequence, world: World, tick: nat, j: nat)
    requires plan.stopOnFailure && j < |plan.steps| && !plan.steps[j].undo.executed
    requires Execute(plan, NoEvaluator, world, tick).Returned?
    ensures var r := Execute(plan, NoEvaluator, world, tick).result;
            |r.steps| == |plan.steps| && (r.steps[j].undo.executed ==> Undone(r.effects, Root(plan.steps[j].id)))
  {
    RunUndoesExactly(plan, world, tick, j);
    var effects := Execute(plan, NoEvaluator, world, tick).result.effects;
    var high := RunUndoLog(plan, world, tick);
    if HasUndo(effects, j) {
      var a :| 0 <= a < |effects| && effects[a].Undo? && effects[a].position == j;
      assert Root(effects[a].id) == Root(plan.steps[j].id);
    }
  }

  /** Within one run a step's identity is as good as its position. */
  lemma UndoneHere(effects: seq<Effect>, steps: seq<Step>, high: nat, j: nat)
    requires UndoLog(effects, steps, 0, high) && WellIdentified(steps) && j < |steps|
    ensures Undone(effects, Root(steps[j].id)) <==> HasUndo(effects, j)
  {
    if Undone(effects, Root(steps[j].id)) {
      var a :| 0 <= a < |effects| && effects[a].Undo? && Root(effects[a].id) == Root(steps[j].id);
      var u := effects[a].position;
      assert steps[u] in steps && !Injected(steps[u].id);
      if u < j {
        PiecesInject(steps, u, j);
      } else if j < u {
        PiecesInject(steps, j, u);
      }
    }
  }

  lemma {:induction false} CompletedOwn(actions: seq<ActionRecord>)
    ensures forall a :: a in Completed(actions) ==> !Injected(a.id)
  {
    if actions != [] {
      CompletedOwn(actions[1..]);
    }
  }

  lemma CompletedRoot(actions: seq<ActionRecord>, root: StepId)
    requires root in RootsOf(CompletedPieces(actions))
    ensures root != Refocus
  {
    CompletedOwn(actions);
    var roots, done := RootsOf(CompletedPieces(actions)), Completed(actions);
    var i :| 0 <= i < |roots| && roots[i] == root;
    assert done[i] in done && Root(done[i].id) == root;
  }

  lemma ApartRoots(before: seq<StepId>, here: seq<StepId>, x: StepId, y: StepId)
    requires Distinct(before + here) && x in before && y in here
    ensures x != y
  {
    var i :| 0 <= i < |before| && before[i] == x;
    var k :| 0 <= k < |here| && here[k] == y;
    assert (before + here)[i] == x && (before + here)[|before| + k] == y;
  }

  /** What earlier runs undid is not in the last run's plan. */
  lemma NotUndoneBefore(s: TaskState, whole: seq<Piece>, j: nat)
    requires UndoBalance(s, whole) && j < |s.plan.steps|
    ensures !Undone(s.effects, Root(s.plan.steps[j].id))
  {
    StillIdentified(s, whole);
    forall a | 0 <= a < |s.effects| && s.effects[a].Undo? ensures Root(s.effects[a].id) != Root(s.plan.steps[j].id) {
      if Injected(s.plan.steps[j].id) {
        CompletedRoot(s.actions, Root(s.effects[a].id));
      } else {
        PieceRoot(s.plan.steps, j);
        ApartRoots(RootsOf(CompletedPieces(s.actions)), RootsOf(Pieces(s.plan.steps)),
                   Root(s.effects[a].id), Root(s.plan.steps[j].id));
      }
    }
  }

  lemma LastRunUndoes(s: TaskState, world: World, whole: seq<Piece>, j: nat)
    requires UndoBalance(s, whole) && j < |s.plan.steps|
    ensures Undone(s.effects + EffectsOf(Execute(s.plan, NoEvaluator, world, s.tick)), Root(s.plan.steps[j].id))
       <==> RunStarts(s.plan, world, s.tick, j)
  {
    var effects := EffectsOf(Execute(s.plan, NoEvaluator, world, s.tick));
    UndoneIn(s.effects, effects, Root(s.plan.steps[j].id));
    NotUndoneBefore(s, whole, j);
    StillIdentified(s, whole);
    var high := RunUndoLog(s.plan, world, s.tick);
    UndoneHere(effects, s.plan.steps, high, j);
    RunUndoesExactly(s.plan, world, s.tick, j);
  }

  lemma BeginBalance(plan: Sequence, tick: nat)
    requires plan.stopOnFailure && WellIdentified(plan.steps)
    ensures UndoBalance(Begin(plan, tick), Pieces(plan.steps))
  {}

  lemma LastRunOf(plan: Sequence, world: World, tick: nat)
    requires plan.stopOnFailure && WellIdentified(plan.steps)
    ensures var run, from := RunTask(plan, world, tick), LastStartOf(plan, world, tick);
            && LeftBy(run, from, world) && UndoBalance(from, Pieces(plan.steps))
            && from.plan.allowCompensation == plan.allowCompensation
            && |from.plan.steps| == |run.state.plan.steps|
  {
    RunTaskIsLoop(plan, world, tick);
    BeginBalance(plan, tick);
    LastRunLeaves(Begin(plan, tick), world, Pieces(plan.steps));
  }

  /** Of a step that a task's memory holds when it ends, whichever way, its compensation has been
      carried out exactly when the last run starts it. Its record tells so if that run returned and
      no deadline struck in the very call. */
  lemma MemoryUndoneExactly(plan: Sequence, world: World, tick: nat, j: nat)
    requires plan.stopOnFailure && WellIdentified(plan.steps)
    requires j < |RunTask(plan, world, tick).state.plan.steps|
    ensures var run, from := RunTask(plan, world, tick), LastStartOf(plan, world, tick);
            var step := run.state.plan.steps[j];
            && |from.plan.steps| == |run.state.plan.steps| && SamePlan(step, from.plan.steps[j])
            && (Undone(run.state.effects, Root(step.id)) <==> RunStarts(from.plan, world, from.tick, j))
            && (step.undo.executed <==> from.plan.steps[j].undo.executed
                                        || (run.end != TornDown && RunRecords(from.plan, world, from.tick, j)))
  {
    LastRunOf(plan, world, tick);
    var from := LastStartOf(plan, world, tick);
    CompensationsAreRecorded(from.plan, NoEvaluator, world, from.tick);
    RunUndoesExactly(from.plan, world, from.tick, j);
    LastRunUndoes(from, world, Pieces(plan.steps), j);
  }

  // ---- how a task ends

  /** The end of a task whose last run, the one after `replans` replans, came to this outcome; the cancel
      event is looked at behind a run that neither succeeded nor was denied. */
  predicate EndToldBy(end: TaskEnd, asked: Option<StepId>, out: Outcome, replans: nat, world: World) {
    match out
    case Raised(_, _) => end == TornDown && asked == None
    case Returned(r) =>
      && (asked.Some? <==> r.status == PermissionDenied)
      && match r.status
         case Success => end == TaskSucceeded
         case PermissionDenied =>
           && end == TaskWaits && r.failedIndex.Some? && r.failedIndex.value < |r.steps|
           && asked == Some(r.steps[r.failedIndex.value].id)
         case CancelledRun => end == TaskFails(None)
         case _ =>
           if world(r.tick).cancel then end == TaskFails(None)
           else if r.error == Some(TimeoutError) || r.error == Some(ToolError("TIMEOUT")) then
             end == TaskFails(Some(NavigationTimeout))
           else end == TaskFails(Some(VerificationFailed)) && replans == 2
  }

  /** What a result tells of its failure. */
  ghost predicate FailureTold(r: Progress) {
    && (r.failedIndex.Some? ==> r.failedIndex.value < |r.steps|)
    && (r.status in {PartialFailure, Failed, PermissionDenied} ==> r.failedIndex.Some?)
    && (r.status == Timeout ==> r.error == Some(TimeoutError) || r.error == Some(ToolError("TIMEOUT")))
  }

  lemma ResultTold(plan: Sequence, world: World, tick: nat)
    ensures var out := Execute(plan, NoEvaluator, world, tick); out.Returned? ==> FailureTold(out.result)
  {
    ExecutionIsTruthful(plan, NoEvaluator, world, tick);
    TaskOutcomes.TimeoutHasError(plan, world, tick);
  }

  lemma StopTold(s: TaskState, r: Progress, world: World)
    requires FailureTold(r) && s.replans <= 2 && s.clarification == None && React(s, r, world).Stop?
    ensures var run := React(s, r, world).run;
            EndToldBy(run.end, run.state.clarification, Returned(r), s.replans, world)
  {
    if r.failedIndex.Some? {
      Compiler.ReplanExactly(Logged(s, r).plan, r.failedIndex.value, Some(Recovery.InspectState));
    }
  }

  lemma {:induction false} LoopEndsExactly(s: TaskState, world: World)
    requires s.replans <= MaxReplans && s.plan.stopOnFailure && s.clarification == None
    ensures var run, from := Loop(s, world), LastStart(s, world);
            && from.replans <= 2
            && EndToldBy(run.end, run.state.clarification, Execute(from.plan, NoEvaluator, world, from.tick),
                         from.replans, world)
    decreases MaxReplans - s.replans
  {
    var out := Execute(s.plan, NoEvaluator, world, s.tick);
    if out.Returned? {
      var r := out.result;
      ReactShape(s, r, world);
      LoopFollows(s, r, world);
      LastStartUnfolds(s, r, world);
      if React(s, r, world).Rerun? {
        ReplanKeepsPieces(Logged(s, r).plan, r.failedIndex.value);
        LoopEndsExactly(React(s, r, world).state, world);
      } else {
        ResultTold(s.plan, world, s.tick);
        StopTold(s, r, world);
      }
    }
  }

  /** How a task ends, and for which step it asks the user, told by its last run: the end is the run's
      own, and a failure that could be repaired ends the task only behind the second replan. */
  lemma TaskEndsExactly(plan: Sequence, world: World, tick: nat)
    requires plan.stopOnFailure
    ensures var run, from := RunTask(plan, world, tick), LastStartOf(plan, world, tick);
            && from.replans <= 2
            && EndToldBy(run.end, run.state.clarification, Execute(from.plan, NoEvaluator, world, from.tick),
                         from.replans, world)
  {
    RunTaskIsLoop(plan, world, tick);
    LoopEndsExactly(Begin(plan, tick), world);
  }
}
