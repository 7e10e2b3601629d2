/** What resuming a suspended goal runs again of the steps that its first unfinished task had
    completed. */
module RepeatedWork {
  import opened Domain
  import opened SequenceSpec
  import opened CompositeTask
  import opened CompositeTaskFacts
  import opened CompositeTaskSafety
  import opened Goals
  import opened GoalFacts
  import opened CancelledGoal
  import opened Resumption
  import opened ResumptionFacts
  import opened Schedules
  import opened UndoEffects
  import opened LastRun
  import opened WonSteps
  import opened LostWork
  import opened TaskTales
  import Compiler
  import Recovery

  // ---- reaching a step

  /** The sequence run actuates the step with this identity. */
  predicate Actuated(effects: seq<Effect>, root: StepId) {
    exists a :: 0 <= a < |effects| && effects[a].Forward? && Root(effects[a].id) == root
  }

  /** For a run that starts at `start`: everything works until an enclosing deadline strikes in the
      attempt at step `at`. */
  function StruckAt(start: nat, at: nat): World {
    t => if t == start + 2 * at + 1 then Good.(strike := OuterDeadline) else Good
  }

  lemma StruckTurn(q: Progress, at: nat, plan: Sequence, world: World)
    requires at < |q.steps| && Clear(q.steps[at].spec)
    requires world(q.tick) == Good && world(q.tick + 1) == Good.(strike := OuterDeadline)
    ensures var m := Turn(q, at, plan, NoEvaluator, world);
            && m.Halt? && m.stage.Hit? && m.stage.strike == OuterDeadline
            && m.stage.p.effects == q.effects + [Forward(at, q.steps[at].id, q.tick + 1)]
  {
    var begun := q.steps[at].(status := Executing);
    AttemptsUnfold(at, begun, 0, AttemptLimit(plan.maxRetries), None, world, q.effects, q.tick + 1);
  }

  /** A step that only clear steps precede can be reached. */
  lemma ClearStepActuated(plan: Sequence, start: nat, at: nat)
    requires at < |plan.steps| && forall j :: 0 <= j <= at ==> Clear(plan.steps[j].spec)
    ensures Actuated(RunTask(plan, StruckAt(start, at), start).state.effects, Root(plan.steps[at].id))
  {
    var world := StruckAt(start, at);
    var q := GoodPrefix(Start(plan, start), 0, at, plan, world);
    assert SamePlan(Start(plan, start).steps[at], q.steps[at]);
    StruckTurn(q, at, plan, world);
    StepLoopUnfolds(q, at, plan, NoEvaluator, world);
    RunTaskIsLoop(plan, world, start);
    var effects := Execute(plan, NoEvaluator, world, start).effects;
    assert effects[|effects| - 1] == Forward(at, q.steps[at].id, q.tick + 1);
    assert [] + effects == effects;
  }

  /** Only steps of the plan can be actuated, besides refocus steps. */
  lemma ActuatedIsOwn(plan: Sequence, world: World, tick: nat, root: StepId) returns (i: nat)
    requires plan.stopOnFailure && root != Refocus && Actuated(RunTask(plan, world, tick).state.effects, root)
    ensures i < |plan.steps| && Root(plan.steps[i].id) == root
  {
    var effects := RunTask(plan, world, tick).state.effects;
    EffectsAreRightful(plan, world, tick);
    var a :| 0 <= a < |effects| && effects[a].Forward? && Root(effects[a].id) == root;
    assert effects[a] in effects && Rightful(effects[a], Pieces(plan.steps), world, tick);
    var spec :| Piece(root, spec) in Pieces(plan.steps);
    i := PieceIsStep(plan.steps, Piece(root, spec));
  }

  // ---- the plan that is left

  /** Step `j` and those before it are let in. */
  predicate ClearUpTo(steps: seq<Step>, j: nat)
    requires j < |steps|
  {
    forall i :: 0 <= i <= j ==> Clear(steps[i].spec)
  }

  lemma LeftIsActuated(before: seq<Step>, after: Sequence, cut: nat, j: nat, start: nat)
    requires CutOff(before, after.steps, cut) && cut <= j < |before| && ClearUpTo(before, j)
    ensures Actuated(RunTask(after, StruckAt(start, j - cut), start).state.effects, Root(before[j].id))
  {
    forall i | 0 <= i <= j - cut ensures SamePlan(before[cut + i], after.steps[i]) && Clear(after.steps[i].spec) {
    }
    ClearStepActuated(after, start, j - cut);
  }

  lemma CutIsNotActuated(before: seq<Step>, after: Sequence, cut: nat, j: nat, world: World, tick: nat)
    requires CutOff(before, after.steps, cut) && after.stopOnFailure && WellIdentified(before)
    requires j < cut && !Injected(before[j].id)
    ensures !Actuated(RunTask(after, world, tick).state.effects, Root(before[j].id))
  {
    if Actuated(RunTask(after, world, tick).state.effects, Root(before[j].id)) {
      var i := ActuatedIsOwn(after, world, tick, Root(before[j].id));
      assert SamePlan(before[cut + i], after.steps[i]);
      PiecesInject(before, j, cut + i);
      assert false;
    }
  }

  /** What the last run completed is behind clear steps only. */
  lemma FinishedIsClear(from: TaskState, world: World, j: nat)
    requires from.plan.stopOnFailure && FinishedLast(from, world, j)
    ensures j < |from.plan.steps| && forall i :: 0 <= i <= j ==> Clear(from.plan.steps[i].spec)
  {
    LastStepsSplit(from, world);
    var steps := LastSteps(from, world);
    forall i | 0 <= i <= j ensures Clear(from.plan.steps[i].spec) {
      assert Done(steps[i]) && SamePlan(from.plan.steps[i], steps[i]);
    }
  }

  // ---- what is cut off, told from the answers

  predicate VerifiedBehind(steps: seq<Step>, j: nat) { exists i :: j <= i < |steps| && CountsVerified(steps[i]) }

  lemma CutExactly(before: seq<Step>, after: seq<Step>, cut: nat, j: nat)
    requires CutOff(before, after, cut)
    ensures j < cut <==> VerifiedBehind(before, j)
  {}

  /** The last run won step `j` or a step behind it with a verdict of TRUE. Of a run that an enclosing
      deadline tore down nothing was written back: there the step must have been verified before. */
  ghost predicate WinsVerified(run: TaskRun, from: TaskState, world: World, j: nat) {
    if run.end == TornDown then VerifiedBehind(from.plan.steps, j)
    else exists i: nat ::
      j <= i && var won := WonAt(from.plan, world, from.tick, i); won.Some? && SaysTrue(world(won.value).verdict)
  }

  lemma VerifiedExactly(run: TaskRun, from: TaskState, world: World, j: nat)
    requires LeftBy(run, from, world)
    ensures VerifiedBehind(run.state.plan.steps, j) <==> WinsVerified(run, from, world, j)
  {
    if run.end != TornDown {
      var steps := run.state.plan.steps;
      forall i: nat | i < |steps|
        ensures CountsVerified(steps[i]) <==>
                var won := WonAt(from.plan, world, from.tick, i); won.Some? && SaysTrue(world(won.value).verdict)
      {
        RunWinsExactly(from.plan, world, from.tick, i);
      }
    }
  }

  lemma SameIdentified(a: seq<Step>, b: seq<Step>)
    requires |a| == |b| && WellIdentified(a) && forall j :: 0 <= j < |a| ==> SamePlan(b[j], a[j])
    ensures WellIdentified(b)
  {
    PiecesSame(a, b);
    forall s | s in b && Injected(s.id) ensures s.spec.compensation.None? {
      var j :| 0 <= j < |b| && b[j] == s;
      assert a[j] in a;
    }
  }

  // ---- the resumed goal

  /** The tasks before `i` are skipped, and the sequence of task `i` starts after two looks at the
      cancel event. */
  lemma {:induction false} SkipsTo(s: RunState, k: nat, i: nat, world: World)
    requires k <= i < |s.memory.tasks| && forall l :: k <= l < i ==> Skips(s.memory, l)
    ensures HeadAt(s, k, i, world) == Some(s)
    decreases i - k
  {
    if k < i {
      HeadAtUnfolds(s, k, i, world);
      SkipsTo(s, k + 1, i, world);
    }
  }

  lemma ResumedStart(s: RunState, i: nat, world: World)
    requires Refuse(s).None? && i < |s.memory.tasks| && s.memory.tasks[i].work.Composite?
    requires forall l :: 0 <= l < i ==> Skips(s.memory, l)
    requires s.memory.tasks[i].state != TaskCompleted && !world(s.tick).cancel && !world(s.tick + 1).cancel
    ensures StartOf(s, i, world) == Some(s.tick + 2)
  {
    forall l | 0 <= l < i ensures Skips(Opening(s).memory, l) {
      assert Skips(s.memory, l);
    }
    SkipsTo(Opening(s), 0, i, world);
  }

  /** Resumed on memory and store as the run `t` left them, the goal actuates the step of task `i`
      with this identity. */
  ghost predicate ActuatesAgain(t: RunState, context: Option<Context>, next: World, i: nat, root: StepId) {
    exists g :: g in Goals.Run(ResumedState(t.memory, context, t), next).effects
                && g.task == i && g.effect.Forward? && Root(g.effect.id) == root
  }

  /** Told of a run, its actuations are those of the task's sequence. */
  lemma ActuatesTold(t: RunState, context: Option<Context>, next: World, i: nat, root: StepId)
    requires var u := ResumedState(t.memory, context, t); i < |u.memory.tasks| && StartOf(u, i, next).Some?
    ensures var u := ResumedState(t.memory, context, t);
            && u.memory.tasks[i].work.Composite?
            && (ActuatesAgain(t, context, next, i, root) <==>
                  Actuated(RunTask(u.memory.tasks[i].work.plan, next, StartOf(u, i, next).value).state.effects, root))
  {
    var u := ResumedState(t.memory, context, t);
    RunTold(u, next, i);
    var end, start := Goals.Run(u, next), StartOf(u, i, next).value;
    var effects := RunTask(u.memory.tasks[i].work.plan, next, start).state.effects;
    if ActuatesAgain(t, context, next, i, root) {
      var g :| g in end.effects && g.task == i && g.effect.Forward? && Root(g.effect.id) == root;
      assert GoalEffect(i, g.effect) in end.effects && g.effect in effects;
    }
    if Actuated(effects, root) {
      var a :| 0 <= a < |effects| && effects[a].Forward? && Root(effects[a].id) == root;
      assert GoalEffect(i, effects[a]) in end.effects;
    }
  }

  lemma NotStartedNotActuated(t: RunState, context: Option<Context>, next: World, i: nat, root: StepId)
    requires var u := ResumedState(t.memory, context, t); i < |u.memory.tasks| && StartOf(u, i, next).None?
    ensures !ActuatesAgain(t, context, next, i, root)
  {
    var u := ResumedState(t.memory, context, t);
    RunTold(u, next, i);
    forall g | g in Goals.Run(u, next).effects ensures g.task != i {
      assert g == GoalEffect(g.task, g.effect);
    }
  }

  /** Task `i` is the first unfinished one, and its sequence was cut down from `before` to `after`. */
  ghost predicate Boundary(u: RunState, before: seq<Step>, after: Sequence, cut: nat, i: nat) {
    && Refuse(u).None? && i < |u.memory.tasks| && u.memory.tasks[i].work == Composite(after)
    && u.memory.tasks[i].state != TaskCompleted && after.stopOnFailure
    && (forall l :: 0 <= l < i ==> Skips(u.memory, l))
    && CutOff(before, after.steps, cut)
  }

  lemma ResumedBoundary(t: RunState, context: Option<Context>, i: nat) returns (after: Sequence, cut: nat)
    requires MemoryOk(t.memory) && Frontier(t.memory.tasks, t.memory.completedIds, i)
    requires i < |t.memory.tasks| && t.memory.tasks[i].work.Composite?
    ensures Boundary(ResumedState(t.memory, context, t), StepsOf(t.memory.tasks[i]), after, cut, i)
    ensures ResumedState(t.memory, context, t).tick == t.tick
  {
    var first := ResumeContinues(t.memory, context);
    var m := Resume(Checkpoint(t.memory), Some(t.memory), context).0;
    SameFirst(t.memory, m, first, i);
    after := CutTaskOf(t.memory, context, i);
    cut :| CutOff(StepsOf(t.memory.tasks[i]), StepsOf(m.tasks[i]), cut);
  }

  /** The boundary is the first unfinished task, and those before it are skipped. */
  lemma SameFirst(m: Memory, r: Memory, first: nat, i: nat)
    requires Continues(m, r, first) && MemoryOk(r) && Frontier(m.tasks, m.completedIds, i) && i < |m.tasks|
    ensures first == i && forall l :: 0 <= l < i ==> Skips(r, l)
  {
    assert m.tasks[i].state != TaskCompleted;
    assert m.tasks[first].state != TaskCompleted;
    var k: nat :| Frontier(r.tasks, r.completedIds, k);
    assert k < |r.tasks| ==> r.tasks[k].state != TaskCompleted;
  }

  lemma CutTaskOf(m: Memory, context: Option<Context>, i: nat) returns (after: Sequence)
    requires MemoryOk(m) && Frontier(m.tasks, m.completedIds, i) && i < |m.tasks| && m.tasks[i].work.Composite?
    ensures var r := Resume(Checkpoint(m), Some(m), context).0;
            && i < |r.tasks| && r.tasks[i].work == Composite(after) && after.stopOnFailure
  {
    WalkFinds(m, Initial(Checkpoint(m), Some(m), context), i);
    var cut := CutIsSafe(m.tasks[i], i);
    after := Cut(m.tasks[i], CheckpointTask(m.tasks[i], i)).0.work.plan;
  }

  lemma LeftIsRepeated(t: RunState, context: Option<Context>, before: seq<Step>, after: Sequence, cut: nat,
                       i: nat, j: nat)
    requires var u := ResumedState(t.memory, context, t); u.tick == t.tick && Boundary(u, before, after, cut, i)
    requires cut <= j < |before| && ClearUpTo(before, j)
    ensures exists next: World :: ActuatesAgain(t, context, next, i, Root(before[j].id))
  {
    var u, next := ResumedState(t.memory, context, t), StruckAt(t.tick + 2, j - cut);
    ResumedStart(u, i, next);
    LeftIsActuated(before, after, cut, j, t.tick + 2);
    ActuatesTold(t, context, next, i, Root(before[j].id));
  }

  lemma CutIsNotRepeated(t: RunState, context: Option<Context>, before: seq<Step>, after: Sequence, cut: nat,
                         i: nat, j: nat, next: World)
    requires Boundary(ResumedState(t.memory, context, t), before, after, cut, i) && WellIdentified(before)
    requires j < cut && !Injected(before[j].id)
    ensures !ActuatesAgain(t, context, next, i, Root(before[j].id))
  {
    var u := ResumedState(t.memory, context, t);
    if StartOf(u, i, next).Some? {
      ActuatesTold(t, context, next, i, Root(before[j].id));
      CutIsNotActuated(before, after, cut, j, next, StartOf(u, i, next).value);
    } else {
      NotStartedNotActuated(t, context, next, i, Root(before[j].id));
    }
  }

  /** The last sequence run of task `i` in a goal run won its step `j`, and task `i` is where the
      goal would be resumed. */
  ghost predicate WonLast(s: RunState, world: World, i: nat, j: nat) {
    && Ready(s) && i < |s.memory.tasks| && StartOf(s, i, world).Some? && s.memory.tasks[i].work.Composite?
    && i < |Goals.Run(s, world).memory.tasks|
    && Frontier(Goals.Run(s, world).memory.tasks, Goals.Run(s, world).memory.completedIds, i)
    && var from := LastStartOf(s.memory.tasks[i].work.plan, world, StartOf(s, i, world).value);
       WonAt(from.plan, world, from.tick, j).Some? && !Injected(from.plan.steps[j].id)
  }

  lemma RunMemoryOk(s: RunState, world: World)
    requires MemoryOk(s.memory) && s.emitted == []
    ensures MemoryOk(Goals.Run(s, world).memory)
  {
    RunStream(s, world);
    var t := Goals.Run(s, world);
    assert EntryOk(t.emitted[|t.emitted| - 1], t.hasStore, t.works);
  }

  /** What memory holds of task `i`, and of the step that was won. */
  lemma WonLeaves(s: RunState, world: World, i: nat, j: nat) returns (run: TaskRun, from: TaskState)
    requires WonLast(s, world, i, j)
    ensures var start := StartOf(s, i, world).value;
            run == RunTask(s.memory.tasks[i].work.plan, world, start)
            && from == LastStartOf(s.memory.tasks[i].work.plan, world, start)
    ensures LeftBy(run, from, world) && MemoryOk(Goals.Run(s, world).memory)
    ensures var t := Goals.Run(s, world);
            && i < |t.memory.tasks| && t.memory.tasks[i].work == Composite(run.state.plan)
    ensures var steps := run.state.plan.steps;
            && j < |from.plan.steps| == |steps| && steps[j].id == from.plan.steps[j].id
            && ClearUpTo(steps, j) && WellIdentified(steps)
  {
    var plan, start := s.memory.tasks[i].work.plan, StartOf(s, i, world).value;
    RunTold(s, world, i);
    RunMemoryOk(s, world);
    assert TaskOk(s.memory.tasks[i]);
    LastRunOf(plan, world, start);
    run, from := RunTask(plan, world, start), LastStartOf(plan, world, start);
    SameIds(run, from, world);
    StillIdentified(from, Pieces(plan.steps));
    SameIdentified(from.plan.steps, run.state.plan.steps);
    FinishedExactly(from, world, j);
    FinishedIsClear(from, world, j);
  }

  /** A goal run followed by a resumption: whether resuming can run a step again that the last run of
      the first unfinished task had completed, told from the answers to that run. In some world the
      resumed goal actuates it again exactly if neither that step nor a later one was won with a
      verdict of TRUE; after a run torn down by an enclosing deadline, exactly if none from that step
      on had been verified before. */
  lemma ResumeRepeatsExactly(s: RunState, world: World, i: nat, j: nat, context: Option<Context>)
    requires WonLast(s, world, i, j)
    ensures var start := StartOf(s, i, world).value;
            var plan := s.memory.tasks[i].work.plan;
            var run, from := RunTask(plan, world, start), LastStartOf(plan, world, start);
            (exists next: World :: ActuatesAgain(Goals.Run(s, world), context, next, i, Root(from.plan.steps[j].id)))
            <==> !WinsVerified(run, from, world, j)
  {
    var run, from := WonLeaves(s, world, i, j);
    var t, steps := Goals.Run(s, world), run.state.plan.steps;
    var after, cut := ResumedBoundary(t, context, i);
    CutExactly(steps, after.steps, cut, j);
    VerifiedExactly(run, from, world, j);
    if j < cut {
      forall next: World ensures !ActuatesAgain(t, context, next, i, Root(steps[j].id)) {
        CutIsNotRepeated(t, context, steps, after, cut, i, j, next);
      }
    } else {
      LeftIsRepeated(t, context, steps, after, cut, i, j);
    }
  }

  predicate NoneVerified(steps: seq<Step>) { forall j :: 0 <= j < |steps| ==> !IsVerified(steps[j]) }

  lemma ReplanUnverified(plan: Sequence, failed: nat)
    requires failed < |plan.steps| && forall j :: failed <= j < |plan.steps| ==> !IsVerified(plan.steps[j])
    ensures var repaired := Compiler.Replan(plan, failed, Some(Recovery.InspectState));
            repaired.Some? && NoneVerified(repaired.value.steps)
  {
    var steps := Compiler.Replan(plan, failed, Some(Recovery.InspectState)).value.steps;
    var rest := plan.steps[failed..];
    var head := |steps| - |rest|;
    forall j | 0 <= j < |steps| ensures !IsVerified(steps[j]) {
      if j >= head {
        assert steps[j] == Compiler.Clone(rest[j - head], j) && rest[j - head] == plan.steps[failed + j - head];
      }
    }
  }

  lemma {:induction false} LastUnverified(s: TaskState, world: World)
    requires s.replans <= MaxReplans && s.plan.stopOnFailure && NoneVerified(s.plan.steps)
    ensures NoneVerified(LastStart(s, world).plan.steps)
    decreases MaxReplans - s.replans
  {
    var out := Execute(s.plan, NoEvaluator, world, s.tick);
    if out.Returned? {
      var r := out.result;
      var k := RunSplit(s.plan, world, s.tick);
      ReactShape(s, r, world);
      LastStartUnfolds(s, r, world);
      if React(s, r, world).Rerun? {
        ReplanUnverified(Logged(s, r).plan, k);
        ReplanKeepsPieces(Logged(s, r).plan, k);
        LastUnverified(React(s, r, world).state, world);
      }
    }
  }

  /** A run that an enclosing deadline tears down is not written back: of a task that started with
      nothing verified, resuming can repeat every step that run had completed and verified. */
  lemma TornDownIsRepeated(s: RunState, world: World, i: nat, j: nat, context: Option<Context>)
    requires WonLast(s, world, i, j) && NoneVerified(StepsOf(s.memory.tasks[i]))
    requires RunTask(s.memory.tasks[i].work.plan, world, StartOf(s, i, world).value).end == TornDown
    ensures var from := LastStartOf(s.memory.tasks[i].work.plan, world, StartOf(s, i, world).value);
            exists next: World :: ActuatesAgain(Goals.Run(s, world), context, next, i, Root(from.plan.steps[j].id))
  {
    var start, plan := StartOf(s, i, world).value, s.memory.tasks[i].work.plan;
    assert TaskOk(s.memory.tasks[i]);
    LastUnverified(Begin(plan, start), world);
    ResumeRepeatsExactly(s, world, i, j, context);
  }
}
