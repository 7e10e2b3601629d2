/** Suspending and resuming a goal: what is kept, what is never run again. */
module ResumptionFacts {
  import opened Domain
  import opened CompositeTask
  import opened CompositeTaskFacts
  import opened CompositeTaskSafety
  import opened Goals
  import opened GoalFacts
  import opened GoalAccounts
  import opened Resumption

  // ---- cutting the verified prefix

  lemma {:induction false} IndicesMeaning(steps: seq<Step>, p: Step -> bool, n: nat)
    requires n <= |steps| && forall j :: 0 <= j < |steps| ==> steps[j].index == j
    ensures forall j: nat :: j in IndicesOf(steps[..n], p) <==> j < n && p(steps[j])
  {
    if n > 0 {
      IndicesMeaning(steps, p, n - 1);
      assert steps[..n][..n - 1] == steps[..n - 1];
    }
  }

  lemma {:induction false} MaxMeaning(s: seq<nat>)
    requires s != []
    ensures MaxOf(s) in s && forall x :: x in s ==> x <= MaxOf(s)
  {
    if |s| > 1 {
      MaxMeaning(s[..|s| - 1]);
      assert s == s[..|s| - 1] + [s[|s| - 1]];
    }
  }

  lemma {:induction false} AfterMeaning(steps: seq<Step>, last: nat, n: nat)
    requires n <= |steps| && forall j :: 0 <= j < |steps| ==> steps[j].index == j
    ensures After(steps[..n], last) == if n <= last + 1 then [] else steps[last + 1..n]
  {
    if n > 0 {
      AfterMeaning(steps, last, n - 1);
      assert steps[..n][..n - 1] == steps[..n - 1];
    }
  }

  /** `cut` steps were cut off the front: every verified step, and no unfinished one. */
  ghost predicate CutOff(before: seq<Step>, after: seq<Step>, cut: nat) {
    && cut <= |before| && |after| == |before| - cut
    && (forall j :: 0 <= j < |after| ==> SamePlan(before[cut + j], after[j]))
    && (forall j :: 0 <= j < |before| && CountsVerified(before[j]) ==> j < cut)
    && (forall j :: 0 <= j < |before| && !Done(before[j]) ==> cut <= j)
    && (cut > 0 ==> CountsVerified(before[cut - 1]))
  }

  lemma VerifiedPrefix(plan: Sequence) returns (last: nat)
    requires PlanOk(plan) && Unfinished(plan.steps) && IndicesOf(plan.steps, CountsVerified) != []
    ensures last == MaxOf(IndicesOf(plan.steps, CountsVerified)) && last < |plan.steps| - 1
            && CountsVerified(plan.steps[last])
    ensures After(plan.steps, last) == plan.steps[last + 1..]
    ensures forall j :: 0 <= j < |plan.steps| && CountsVerified(plan.steps[j]) ==> j <= last
  {
    var steps, verified := plan.steps, IndicesOf(plan.steps, CountsVerified);
    assert steps[..|steps|] == steps;
    IndicesMeaning(steps, CountsVerified, |steps|);
    last := MaxOf(verified);
    MaxMeaning(verified);
    AfterMeaning(steps, last, |steps|);
    forall j | 0 <= j < |steps| && CountsVerified(steps[j]) ensures j <= last {
      assert (j as nat) in verified;
    }
  }

  lemma CutPrefix(plan: Sequence, last: nat)
    requires PlanOk(plan) && Unfinished(plan.steps)
    requires last < |plan.steps| - 1 && CountsVerified(plan.steps[last])
    requires forall j :: 0 <= j < |plan.steps| && CountsVerified(plan.steps[j]) ==> j <= last
    ensures var rest := Reset(plan.steps[last + 1..]);
      CutOff(plan.steps, rest, last + 1) && PlanOk(plan.(steps := rest)) && Unfinished(rest)
  {
    var rest := Reset(plan.steps[last + 1..]);
    assert forall j :: 0 <= j < |rest| ==> SamePlan(plan.steps[last + 1 + j], rest[j]);
    assert SplitAt(rest, 0);
  }

  lemma NothingVerified(plan: Sequence)
    requires PlanOk(plan) && IndicesOf(plan.steps, CountsVerified) == []
    ensures CutOff(plan.steps, plan.steps, 0)
  {
    var steps := plan.steps;
    assert steps[..|steps|] == steps;
    IndicesMeaning(steps, CountsVerified, |steps|);
    assert forall j: nat :: j < |steps| ==> j !in IndicesOf(steps, CountsVerified);
  }

  /** Cutting `t` down to `after` is safe, and `boundary` tells how much was cut. */
  ghost predicate SafeCut(t: Task, after: Task, boundary: Boundary, cut: nat) {
    && CutOff(StepsOf(t), StepsOf(after), cut)
    && after == t.(work := after.work)
    && TaskOk(after)
    && match boundary
       case FromStep(_, skipped) => skipped == cut > 0
       case Reverify(_) => cut == 0 && after == t
       case FromStart(_) => cut == 0 && after == t
       case _ => false
  }

  lemma CutTo(t: Task, tcp: TaskCheckpoint, last: nat)
    requires t.work.Composite? && tcp.verifiedSteps != [] && last == MaxOf(tcp.verifiedSteps)
    requires last < |t.work.plan.steps| - 1 && After(t.work.plan.steps, last) == t.work.plan.steps[last + 1..]
    ensures Cut(t, tcp) == (Shortened(t, last), FromStep(tcp.index, last + 1))
  {}

  /** The task without its steps up to `last`. */
  function Shortened(t: Task, last: nat): Task
    requires t.work.Composite? && last < |t.work.plan.steps|
  {
    t.(work := Composite(t.work.plan.(steps := Reset(t.work.plan.steps[last + 1..]))))
  }

  lemma ShortenedIsSafe(t: Task, index: nat, last: nat)
    requires t.work.Composite? && last < |t.work.plan.steps|
    requires var rest := Reset(t.work.plan.steps[last + 1..]);
      CutOff(t.work.plan.steps, rest, last + 1) && PlanOk(t.work.plan.(steps := rest)) && Unfinished(rest)
    ensures SafeCut(t, Shortened(t, last), FromStep(index, last + 1), last + 1)
  {}

  lemma UnverifiedCut(t: Task, index: nat)
    requires TaskOk(t) && t.state != TaskCompleted && CheckpointTask(t, index).verifiedSteps == []
    ensures var (after, boundary) := Cut(t, CheckpointTask(t, index));
            SafeCut(t, after, boundary, 0)
  {
    if t.work.Plain? {
      assert CutOff([], [], 0);
    } else {
      NothingVerified(t.work.plan);
    }
  }

  lemma VerifiedCut(t: Task, index: nat) returns (cut: nat)
    requires t.work.Composite? && PlanOk(t.work.plan) && Unfinished(t.work.plan.steps) && t.state != TaskCompleted
    requires IndicesOf(t.work.plan.steps, CountsVerified) != []
    ensures var (after, boundary) := Cut(t, CheckpointTask(t, index));
            SafeCut(t, after, boundary, cut)
  {
    var last := VerifiedPrefix(t.work.plan);
    CutPrefix(t.work.plan, last);
    ShortenedIsSafe(t, index, last);
    CutTo(t, CheckpointTask(t, index), last);
    cut := last + 1;
  }

  lemma CutIsSafe(t: Task, index: nat) returns (cut: nat)
    requires TaskOk(t) && t.state != TaskCompleted
    ensures var (after, boundary) := Cut(t, CheckpointTask(t, index));
            SafeCut(t, after, boundary, cut)
  {
    if t.work.Composite? && IndicesOf(t.work.plan.steps, CountsVerified) != [] {
      cut := VerifiedCut(t, index);
    } else {
      UnverifiedCut(t, index);
      cut := 0;
    }
  }

  // ---- walking to the boundary

  /** Completed tasks before k are listed, everything else is as in `m`. */
  ghost predicate WalkedTo(m: Memory, w: Memory, k: nat) {
    && k <= |m.tasks|
    && w.tasks == m.tasks
    && (forall j :: 0 <= j < k ==> m.tasks[j].state == TaskCompleted && m.tasks[j].id in w.completedIds)
  }

  /** The task checkpoints name the tasks of `m` and tell which ones are completed. */
  predicate Describes(tcps: seq<TaskCheckpoint>, m: Memory) {
    && |tcps| == |m.tasks|
    && forall j :: 0 <= j < |tcps| ==>
      tcps[j].index == j && tcps[j].taskId == m.tasks[j].id
        && (Finished(tcps[j]) <==> m.tasks[j].state == TaskCompleted)
  }

  /** The walk over `tcps` ends at task `first` with `r`. */
  ghost predicate Found(m: Memory, tcps: seq<TaskCheckpoint>, r: Memory, boundary: Boundary, first: nat)
    requires first <= |m.tasks| == |tcps|
  {
    && (first == |m.tasks| ==> r.tasks == m.tasks && r.current == 0 && boundary == NothingLeft)
    && (first < |m.tasks| ==>
          var (task, b) := Cut(m.tasks[first], tcps[first]);
          r.tasks == m.tasks[first := task] && r.current == first && boundary == b)
    && (forall j :: 0 <= j < first ==> m.tasks[j].id in r.completedIds)
  }

  lemma WalksOn(m: Memory, w: Memory, tcp: TaskCheckpoint, k: nat)
    requires WalkedTo(m, w, k) && k < |m.tasks| && m.tasks[k].state == TaskCompleted
    requires tcp.index == k && tcp.taskId == m.tasks[k].id
    ensures WalkedTo(m, Retain(w, tcp), k + 1)
  {
    assert m.tasks[k := m.tasks[k].(state := TaskCompleted)] == m.tasks;
  }

  lemma {:induction false} WalkEnds(tcps: seq<TaskCheckpoint>, m: Memory, w: Memory, k: nat, first: nat)
    requires Describes(tcps, m)
    requires Frontier(m.tasks, m.completedIds, first) && k <= first && WalkedTo(m, w, k)
    ensures var (r, boundary) := Walk(tcps, k, w);
            Found(m, tcps, r, boundary, first)
    decreases first - k
  {
    if k < |tcps| {
      WalkUnfolds(tcps, k, w);
      if k < first {
        WalksOn(m, w, tcps[k], k);
        WalkEnds(tcps, m, Retain(w, tcps[k]), k + 1, first);
      }
    }
  }

  lemma WalkFinds(m: Memory, w: Memory, first: nat)
    requires Frontier(m.tasks, m.completedIds, first) && WalkedTo(m, w, 0)
    ensures var (r, boundary) := Walk(CheckpointTasks(m.tasks), 0, w);
            Found(m, CheckpointTasks(m.tasks), r, boundary, first)
  {
    WalkEnds(CheckpointTasks(m.tasks), m, w, 0, first);
  }

  /** What resuming the checkpoint of `m` on the same goal leaves to do: the tasks before `first`
      stay completed, task `first` loses its verified prefix and nothing else, the later tasks
      are untouched. */
  ghost predicate Continues(m: Memory, r: Memory, first: nat) {
    && first <= |m.tasks| == |r.tasks|
    && (forall j :: 0 <= j < |m.tasks| && j != first ==> r.tasks[j] == m.tasks[j])
    && (forall j :: 0 <= j < |m.tasks| ==> (m.tasks[j].state == TaskCompleted <==> j < first))
    && (first < |m.tasks| ==>
          && r.tasks[first] == m.tasks[first].(work := r.tasks[first].work)
          && r.current == first
          && exists cut: nat :: CutOff(StepsOf(m.tasks[first]), StepsOf(r.tasks[first]), cut))
  }

  lemma NothingLeftContinues(m: Memory, r: Memory)
    requires Frontier(m.tasks, m.completedIds, |m.tasks|) && MemoryOk(m)
    requires r.tasks == m.tasks && r.current == 0
    requires forall j :: 0 <= j < |m.tasks| ==> m.tasks[j].id in r.completedIds
    ensures Continues(m, r, |m.tasks|) && MemoryOk(r)
  {
    assert Frontier(r.tasks, r.completedIds, |m.tasks|);
  }

  lemma CutContinues(m: Memory, r: Memory, first: nat, after: Task, boundary: Boundary, cut: nat)
    requires Frontier(m.tasks, m.completedIds, first) && MemoryOk(m) && first < |m.tasks|
    requires r.tasks == m.tasks[first := after] && r.current == first
    requires forall j :: 0 <= j < first ==> m.tasks[j].id in r.completedIds
    requires SafeCut(m.tasks[first], after, boundary, cut)
    ensures Continues(m, r, first) && MemoryOk(r)
  {
    assert CutOff(StepsOf(m.tasks[first]), StepsOf(r.tasks[first]), cut);
    assert Frontier(r.tasks, r.completedIds, first);
  }

  /** Resuming the checkpoint that `m` writes, on the goal `m` holds and with any context, never takes the branch for
      a fully verified unfinished task, cuts exactly the verified steps off the first unfinished
      task and keeps every unfinished step in order. */
  lemma ResumeContinues(m: Memory, context: Option<Context>) returns (first: nat)
    requires MemoryOk(m)
    ensures var (r, boundary) := Resume(Checkpoint(m), Some(m), context);
            && !boundary.AllStepsVerified?
            && Continues(m, r, first)
            && MemoryOk(r)
            && r.goalState == GoalExecuting
    ensures Resumable(Checkpoint(m)) <==> !EndState(m.goalState)
  {
    first :| Frontier(m.tasks, m.completedIds, first);
    WalkFinds(m, Initial(Checkpoint(m), Some(m), context), first);
    var (r, boundary) := Resume(Checkpoint(m), Some(m), context);
    if first < |m.tasks| {
      var cut := CutIsSafe(m.tasks[first], first);
      CutContinues(m, r, first, r.tasks[first], boundary, cut);
    } else {
      NothingLeftContinues(m, r);
    }
  }

  lemma {:induction false} IndicesEmpty(steps: seq<Step>, p: Step -> bool)
    ensures IndicesOf(steps, p) == [] <==> forall j :: 0 <= j < |steps| ==> !p(steps[j])
  {
    if steps != [] {
      var front, last := steps[..|steps| - 1], steps[|steps| - 1];
      IndicesEmpty(front, p);
      assert forall j :: 0 <= j < |front| ==> front[j] == steps[j];
      assert IndicesOf(steps, p) == IndicesOf(front, p) + if p(last) then [last.index] else [];
    }
  }

  /** Something was done for the step: its actuation was accepted, or it was completed. */
  predicate Touched(s: Step) { s.accepted || s.status == ActuationAccepted || s.status == VerifiedSuccess }

  /** The step was completed with a verdict of TRUE. */
  predicate Confirmed(s: Step) {
    s.status == VerifiedSuccess && s.verdict.Some? && s.verdict.value.verified == TRUE
  }

  /** What a boundary inside a task with these steps tells. */
  ghost predicate Tells(told: Classification, steps: seq<Step>) {
    && (told == RequiresReverification <==>
          (exists j :: 0 <= j < |steps| && Touched(steps[j])) && forall j :: 0 <= j < |steps| ==> !Confirmed(steps[j]))
    && (told == SafeToRetry <==> forall j :: 0 <= j < |steps| ==> !Touched(steps[j]))
  }

  /** What the checkpoint of a goal says of it. */
  lemma CheckpointTells(m: Memory)
    ensures var cp := Checkpoint(m);
            && cp.goalId == m.goalId && cp.schemaVersion == "1.0" && cp.goalState == m.goalState
            && cp.current == m.current && cp.totalTasks == |m.tasks| == |cp.tasks|
            && cp.clarification == m.clarification
            && (cp.resumable <==> m.goalState != GoalCompleted && m.goalState != GoalCancelled)
  {}

  /** And of each of its tasks, by the numbers of its steps. */
  lemma CheckpointTellsTask(m: Memory, i: nat)
    requires i < |m.tasks|
    ensures var tcp, t := Checkpoint(m).tasks[i], m.tasks[i];
            && tcp.taskId == t.id && tcp.index == i && tcp.state == t.state
            && (tcp.isVerified <==> t.state == TaskCompleted)
    ensures TaskOk(m.tasks[i]) ==>
              var tcp, steps := Checkpoint(m).tasks[i], StepsOf(m.tasks[i]);
              forall j: nat ::
                && (j in tcp.completedSteps <==> j < |steps| && Touched(steps[j]))
                && (j in tcp.verifiedSteps <==> j < |steps| && Confirmed(steps[j]))
  {
    var steps := StepsOf(m.tasks[i]);
    assert steps[..|steps|] == steps;
    if TaskOk(m.tasks[i]) {
      IndicesMeaning(steps, CountsCompleted, |steps|);
      IndicesMeaning(steps, CountsVerified, |steps|);
    }
  }

  lemma CutClassifies(t: Task, index: nat)
    requires TaskOk(t) && t.state != TaskCompleted
    ensures Tells(Classify(Cut(t, CheckpointTask(t, index)).1), StepsOf(t))
  {
    var steps := StepsOf(t);
    IndicesEmpty(steps, CountsCompleted);
    IndicesEmpty(steps, CountsVerified);
    assert forall j :: 0 <= j < |steps| && CountsVerified(steps[j]) ==> CountsCompleted(steps[j]);
    assert forall j :: 0 <= j < |steps| ==> (CountsCompleted(steps[j]) <==> Touched(steps[j]));
    assert forall j :: 0 <= j < |steps| ==> (CountsVerified(steps[j]) <==> Confirmed(steps[j]));
  }

  /** What resuming tells the caller: the first unfinished task has to be verified again exactly
      when some step of it was actuated and none was verified, and is safe to retry exactly when
      none was actuated. */
  lemma ResumeClassifies(m: Memory, context: Option<Context>, first: nat)
    requires MemoryOk(m) && Frontier(m.tasks, m.completedIds, first)
    ensures var told := Classify(Resume(Checkpoint(m), Some(m), context).1);
            if first < |m.tasks| then Tells(told, StepsOf(m.tasks[first])) else told == VerifiedAndSafe
  {
    WalkFinds(m, Initial(Checkpoint(m), Some(m), context), first);
    if first < |m.tasks| {
      CutClassifies(m.tasks[first], first);
    }
  }

  // ---- what a resumed run does

  /** The resumed goal in a runtime of its own, on the store of `from`. */
  function ResumedState(m: Memory, context: Option<Context>, from: RunState): RunState {
    Save(from.(memory := Resume(Checkpoint(m), Some(m), context).0, goalClarification := None, invalidPlan := false,
               emitted := [], effects := []))
  }

  /** Step `j` of task `i` is recorded as verified, or belongs to a completed task. */
  predicate Spent(m: Memory, i: nat, j: nat) {
    && i < |m.tasks| && j < |StepsOf(m.tasks[i])| && !Injected(StepsOf(m.tasks[i])[j].id)
    && (CountsVerified(StepsOf(m.tasks[i])[j]) || m.tasks[i].state == TaskCompleted)
  }

  /** No actuation of a resumed run is for a step that the checkpoint records as verified, or
      for any step of a completed task. */
  lemma ResumedRunNeverRepeats(m: Memory, context: Option<Context>, from: RunState, world: World)
    requires MemoryOk(m)
    requires forall i :: 0 <= i < |m.tasks| ==> WellIdentified(StepsOf(m.tasks[i]))
    ensures var t := Goals.Run(ResumedState(m, context, from), world);
            forall g, j: nat :: g in t.effects && g.effect.Forward? && !Injected(g.effect.id) && Spent(m, g.task, j) ==>
              Root(g.effect.id) != Root(StepsOf(m.tasks[g.task])[j].id)
  {
    var first := ResumeContinues(m, context);
    var s := ResumedState(m, context, from);
    GoalIsAccounted(s, world);
    var t := Goals.Run(s, world);
    forall g, j: nat | g in t.effects && g.effect.Forward? && !Injected(g.effect.id) && Spent(m, g.task, j)
      ensures Root(g.effect.id) != Root(StepsOf(m.tasks[g.task])[j].id)
    {
      EffectNeverRepeats(m, s.memory, first, g, j, world, from.tick);
    }
  }

  lemma EffectNeverRepeats(m: Memory, r: Memory, first: nat, g: GoalEffect, j: nat, world: World, tick: nat)
    requires MemoryOk(m) && Continues(m, r, first) && EffectOk(g, r, world, tick)
    requires g.effect.Forward? && !Injected(g.effect.id) && Spent(m, g.task, j)
    requires WellIdentified(StepsOf(m.tasks[g.task]))
    ensures Root(g.effect.id) != Root(StepsOf(m.tasks[g.task])[j].id)
  {
    if g.task > first {
      LaterUntried(m, first, g.task);
    }
    NoRepeat(m, r, first, g, j, world, tick);
  }

  lemma LaterUntried(m: Memory, first: nat, i: nat)
    requires MemoryOk(m) && first < i < |m.tasks| && m.tasks[first].state != TaskCompleted
    ensures Untried(m.tasks[i])
  {
    var k: nat :| Frontier(m.tasks, m.completedIds, k);
  }

  lemma NoRepeat(m: Memory, r: Memory, first: nat, g: GoalEffect, j: nat, world: World, tick: nat)
    requires Continues(m, r, first) && EffectOk(g, r, world, tick)
    requires g.effect.Forward? && !Injected(g.effect.id) && first <= g.task < |m.tasks|
    requires g.task > first ==> Untried(m.tasks[g.task])
    requires WellIdentified(StepsOf(m.tasks[g.task]))
    requires Spent(m, g.task, j) && m.tasks[g.task].state != TaskCompleted
    ensures Root(g.effect.id) != Root(StepsOf(m.tasks[g.task])[j].id)
  {
    var before, after := StepsOf(m.tasks[g.task]), StepsOf(r.tasks[g.task]);
    assert before[j] in before;
    if g.task == first {
      var cut: nat :| CutOff(before, after, cut);
      var spec :| Piece(Root(g.effect.id), spec) in Pieces(after);
      NotCutOff(before, after, cut, j, Piece(Root(g.effect.id), spec));
    }
  }

  /** A step left after the cut is not one of the verified steps before it. */
  lemma NotCutOff(before: seq<Step>, after: seq<Step>, cut: nat, j: nat, piece: Piece)
    requires CutOff(before, after, cut) && WellIdentified(before) && piece in Pieces(after)
    requires j < |before| && CountsVerified(before[j]) && !Injected(before[j].id)
    ensures piece.root != Root(before[j].id)
  {
    var i := PieceIsStep(after, piece);
    assert SamePlan(before[cut + i], after[i]);
    PiecesInject(before, j, cut + i);
  }

  lemma {:induction false} PieceIsStep(steps: seq<Step>, piece: Piece) returns (i: nat)
    requires piece in Pieces(steps)
    ensures i < |steps| && !Injected(steps[i].id) && piece == Piece(Root(steps[i].id), steps[i].spec)
  {
    if !Injected(steps[0].id) && piece == Piece(Root(steps[0].id), steps[0].spec) {
      i := 0;
    } else {
      i := PieceIsStep(steps[1..], piece);
      i := i + 1;
    }
  }

  /** Suspend and resume, end to end: every checkpoint that a run writes before an event can be
      resumed on the same goal with the guarantees of ResumeContinues, unless the goal had ended. */
  lemma EveryCheckpointResumes(s: RunState, world: World, k: nat, context: Option<Context>)
    requires MemoryOk(s.memory) && s.emitted == [] && s.hasStore
    requires k < |Goals.Run(s, world).emitted|
    requires Goals.Run(s, world).emitted[k].writes > 0 ==> s.works(Goals.Run(s, world).emitted[k].writes - 1)
    ensures var e := Goals.Run(s, world).emitted[k];
            && e.stored == Some(Checkpoint(e.memory))
            && (Resumable(e.stored.value) <==> !EndState(e.memory.goalState))
            && var (r, boundary) := Resume(e.stored.value, Some(e.memory), context);
               && !boundary.AllStepsVerified? && MemoryOk(r)
               && exists first: nat :: Continues(e.memory, r, first)
  {
    RunStream(s, world);
    var t := Goals.Run(s, world);
    RunKeepsStore(s, world);
    assert EntryOk(t.emitted[k], t.hasStore, t.works);
    var first := ResumeContinues(t.emitted[k].memory, context);
  }

  ghost predicate SameStore(s: RunState, t: RunState) { t.hasStore == s.hasStore && t.works == s.works }

  lemma {:induction false} RunTasksKeepsStore(s: RunState, i: nat, world: World)
    requires i <= |s.memory.tasks|
    ensures SameStore(s, RunTasks(s, i, world))
    decreases |s.memory.tasks| - i
  {
    if i < |s.memory.tasks| {
      RunTasksUnfolds(s, i, world);
      TurnKeepsStore(s, i, world);
      var flow := TaskTurn(s, i, world);
      if flow.Continue? {
        RunTasksKeepsStore(flow.s, i + 1, world);
      }
    }
  }

  lemma ConcludeKeepsStore(end: TaskEnd, s: RunState, i: nat, world: World)
    requires i < |s.memory.tasks|
    ensures SameStore(s, Goals.Conclude(end, s, i, world).s)
  {}

  lemma PerformKeepsStore(s: RunState, i: nat, world: World)
    requires i < |s.memory.tasks|
    ensures SameStore(s, PerformAndConclude(s, i, world).s)
  {
    var (end, performed) := Perform(s, i, world);
    ConcludeKeepsStore(end, performed, i, world);
  }

  lemma WorkKeepsStore(s: RunState, i: nat, world: World)
    requires i < |s.memory.tasks|
    ensures SameStore(s, WorkOn(s, i, world).s)
  {
    if !world(s.tick).cancel {
      PerformKeepsStore(Later(s), i, world);
    }
  }

  lemma TurnKeepsStore(s: RunState, i: nat, world: World)
    requires i < |s.memory.tasks|
    ensures SameStore(s, TaskTurn(s, i, world).s)
  {
    if !Skips(s.memory, i) && !world(s.tick).cancel {
      WorkKeepsStore(StartTask(Later(s), i), i, world);
    }
  }

  lemma RunKeepsStore(s: RunState, world: World)
    ensures SameStore(s, Goals.Run(s, world))
  {
    if Refuse(s).None? {
      RunTasksKeepsStore(EndGoal(s, GoalExecuting, GoalAcceptedEvent), 0, world);
    }
  }

  // ---- any checkpoint

  /** The task of this checkpoint is completed and verified. */
  predicate Settled(tcp: TaskCheckpoint) { tcp.state == TaskCompleted && tcp.isVerified }

  /** The first task checkpoint that is not. */
  predicate FirstOpen(tcps: seq<TaskCheckpoint>, k: nat) {
    k <= |tcps| && (forall j :: 0 <= j < k ==> Settled(tcps[j])) && (k < |tcps| ==> !Settled(tcps[k]))
  }

  predicate NamedBefore(tcps: seq<TaskCheckpoint>, k: nat, id: string)
    requires k <= |tcps|
  {
    exists j :: 0 <= j < k && tcps[j].taskId == id
  }

  predicate NumberedBefore(tcps: seq<TaskCheckpoint>, k: nat, i: int)
    requires k <= |tcps|
  {
    exists j :: 0 <= j < k && tcps[j].index == i
  }

  /** The settled tasks before `k` are listed as completed, each once, and are completed in memory. */
  ghost predicate Retained(tcps: seq<TaskCheckpoint>, k: nat, m: Memory, r: Memory)
    requires k <= |tcps|
  {
    && |r.tasks| == |m.tasks|
    && (forall id :: id in r.completedIds <==> id in m.completedIds || NamedBefore(tcps, k, id))
    && (forall i :: 0 <= i < |m.tasks| ==>
          r.tasks[i] == if NumberedBefore(tcps, k, i) then m.tasks[i].(state := TaskCompleted) else m.tasks[i])
    && r == m.(completedIds := r.completedIds, tasks := r.tasks)
  }

  /** Where the walk ends, with the memory as it is there. */
  ghost predicate StopsAt(tcps: seq<TaskCheckpoint>, k: nat, at: Memory, r: Memory, boundary: Boundary)
    requires k <= |tcps|
  {
    if k == |tcps| then r == at.(current := 0) && boundary == NothingLeft
    else
      var i := tcps[k].index;
      if i >= |at.tasks| then r == at.(current := i) && boundary == NothingLeft
      else r == at.(current := i, tasks := at.tasks[i := Cut(at.tasks[i], tcps[k]).0])
           && boundary == Cut(at.tasks[i], tcps[k]).1
  }

  lemma NamedNext(tcps: seq<TaskCheckpoint>, k: nat, id: string)
    requires k < |tcps|
    ensures NamedBefore(tcps, k + 1, id) <==> NamedBefore(tcps, k, id) || tcps[k].taskId == id
  {
    if NamedBefore(tcps, k, id) {
      var j :| 0 <= j < k && tcps[j].taskId == id;
      assert 0 <= j < k + 1 && tcps[j].taskId == id;
    }
  }

  lemma NumberedNext(tcps: seq<TaskCheckpoint>, k: nat, i: int)
    requires k < |tcps|
    ensures NumberedBefore(tcps, k + 1, i) <==> NumberedBefore(tcps, k, i) || tcps[k].index == i
  {
    if NumberedBefore(tcps, k, i) {
      var j :| 0 <= j < k && tcps[j].index == i;
      assert 0 <= j < k + 1 && tcps[j].index == i;
    }
  }

  lemma RetainsIds(tcps: seq<TaskCheckpoint>, k: nat, m: Memory, w: Memory)
    requires k < |tcps| && Retained(tcps, k, m, w)
    ensures forall id :: id in Retain(w, tcps[k]).completedIds <==>
              id in m.completedIds || NamedBefore(tcps, k + 1, id)
  {
    var r := Retain(w, tcps[k]);
    forall id ensures id in r.completedIds <==> id in w.completedIds || id == tcps[k].taskId {
    }
    forall id ensures NamedBefore(tcps, k + 1, id) <==> NamedBefore(tcps, k, id) || tcps[k].taskId == id {
      NamedNext(tcps, k, id);
    }
  }

  lemma RetainsTasks(tcps: seq<TaskCheckpoint>, k: nat, m: Memory, w: Memory)
    requires k < |tcps| && Retained(tcps, k, m, w)
    ensures var r := Retain(w, tcps[k]);
            && |r.tasks| == |m.tasks|
            && forall i :: 0 <= i < |m.tasks| ==>
                 r.tasks[i]
                 == if NumberedBefore(tcps, k + 1, i) then m.tasks[i].(state := TaskCompleted) else m.tasks[i]
  {
    forall i ensures NumberedBefore(tcps, k + 1, i) <==> NumberedBefore(tcps, k, i) || tcps[k].index == i {
      NumberedNext(tcps, k, i);
    }
  }

  lemma RetainsOne(tcps: seq<TaskCheckpoint>, k: nat, m: Memory, w: Memory)
    requires k < |tcps| && Retained(tcps, k, m, w)
    ensures Retained(tcps, k + 1, m, Retain(w, tcps[k]))
  {
    RetainsIds(tcps, k, m, w);
    RetainsTasks(tcps, k, m, w);
  }

  lemma WalkStops(tcps: seq<TaskCheckpoint>, k: nat, w: Memory)
    requires FirstOpen(tcps, k)
    ensures var (r, boundary) := Walk(tcps, k, w); StopsAt(tcps, k, w, r, boundary)
  {
    if k < |tcps| {
      WalkUnfolds(tcps, k, w);
    }
  }

  /** The memory in which the walk stops. */
  function WalkedBy(tcps: seq<TaskCheckpoint>, k: nat, first: nat, w: Memory): Memory
    requires k <= first <= |tcps|
    decreases first - k
  {
    if k == first then w else WalkedBy(tcps, k + 1, first, Retain(w, tcps[k]))
  }

  lemma WalkPasses(tcps: seq<TaskCheckpoint>, k: nat, w: Memory)
    requires k < |tcps| && Settled(tcps[k])
    ensures Walk(tcps, k, w) == Walk(tcps, k + 1, Retain(w, tcps[k]))
  {
    WalkUnfolds(tcps, k, w);
  }

  lemma {:induction false} WalkReaches(tcps: seq<TaskCheckpoint>, k: nat, first: nat, w: Memory)
    requires first <= |tcps| && (forall j :: 0 <= j < first ==> Settled(tcps[j])) && k <= first
    ensures Walk(tcps, k, w) == Walk(tcps, first, WalkedBy(tcps, k, first, w))
    decreases first - k
  {
    if k < first {
      WalkPasses(tcps, k, w);
      WalkReaches(tcps, k + 1, first, Retain(w, tcps[k]));
      assert WalkedBy(tcps, k, first, w) == WalkedBy(tcps, k + 1, first, Retain(w, tcps[k]));
    }
  }

  lemma {:induction false} WalkRetains(tcps: seq<TaskCheckpoint>, k: nat, first: nat, m: Memory, w: Memory)
    requires k <= first <= |tcps| && Retained(tcps, k, m, w)
    ensures Retained(tcps, first, m, WalkedBy(tcps, k, first, w))
    decreases first - k
  {
    if k < first {
      RetainsOne(tcps, k, m, w);
      WalkRetains(tcps, k + 1, first, m, Retain(w, tcps[k]));
    }
  }

  /** The goal and context a resumption starts from. */
  ghost predicate StartsFrom(m: Memory, cp: GoalCheckpoint, goal: Option<Memory>, context: Option<Context>) {
    && (goal.Some? ==> m == goal.value.(completedIds := m.completedIds, clarification := m.clarification))
    && (goal.None? ==>
          && m.goalId == cp.goalId && m.goalState == cp.goalState && !m.isComplete && m.current == 0
          && |m.tasks| == |cp.tasks|
          && forall j :: 0 <= j < |cp.tasks| ==>
               m.tasks[j] == Task(cp.tasks[j].taskId, cp.tasks[j].state, Plain(0), []))
    && m.completedIds == (if context.Some? then context.value.completedIds else [])
    && m.clarification == if context.Some? && cp.clarification.None? then context.value.clarification
                          else cp.clarification
  }

  /** Resuming from any checkpoint, on any goal and context, exactly: the tasks before the first one
      that is not completed and verified are listed and completed, that one is cut if the goal has it,
      and the goal executes from there. */
  lemma ResumeExactly(cp: GoalCheckpoint, goal: Option<Memory>, context: Option<Context>, first: nat)
    returns (m: Memory, at: Memory)
    requires FirstOpen(cp.tasks, first)
    ensures StartsFrom(m, cp, goal, context) && Retained(cp.tasks, first, m, at)
    ensures var (r, boundary) := Resume(cp, goal, context);
            exists w :: StopsAt(cp.tasks, first, at, w, boundary) && r == w.(goalState := GoalExecuting)
  {
    m := Initial(cp, goal, context);
    assert Retained(cp.tasks, 0, m, m);
    at := WalkedBy(cp.tasks, 0, first, m);
    WalkRetains(cp.tasks, 0, first, m, m);
    WalkReaches(cp.tasks, 0, first, m);
    WalkStops(cp.tasks, first, at);
    var (w, boundary) := Walk(cp.tasks, 0, m);
    assert StopsAt(cp.tasks, first, at, w, boundary);
  }

  lemma {:induction false} AfterSplits(a: seq<Step>, b: seq<Step>, last: nat)
    ensures After(a + b, last) == After(a, last) + After(b, last)
  {
    if b == [] {
      assert a + b == a;
    } else {
      assert (a + b)[..|a + b| - 1] == a + b[..|b| - 1];
      AfterSplits(a, b[..|b| - 1], last);
    }
  }

  /** What a task checkpoint makes of a task, whatever its numbers: the steps numbered above the highest
      verified one stay, renumbered and pending; if none is above, or none was verified, all stay as they
      are, and the boundary tells why. */
  lemma CutExactly(t: Task, tcp: TaskCheckpoint)
    ensures var (after, boundary) := Cut(t, tcp);
            if t.work.Composite? && tcp.verifiedSteps != [] then
              var last := MaxOf(tcp.verifiedSteps);
              var rest := After(t.work.plan.steps, last);
              && last in tcp.verifiedSteps && (forall x :: x in tcp.verifiedSteps ==> x <= last)
              && if rest == [] then after == t && boundary == AllStepsVerified(tcp.index)
                 else
                   && boundary == FromStep(tcp.index, last + 1) && after.work.Composite?
                   && after == t.(work := Composite(t.work.plan.(steps := after.work.plan.steps)))
                   && |after.work.plan.steps| == |rest|
                   && forall j :: 0 <= j < |rest| ==>
                        after.work.plan.steps[j] == rest[j].(index := j, status := Pending)
            else
              && after == t
              && boundary == if tcp.completedSteps != [] && tcp.verifiedSteps == [] then Reverify(tcp.index)
                             else FromStart(tcp.index)
    ensures forall s, last :: After([s], last) == if s.index > last then [s] else []
  {
    if tcp.verifiedSteps != [] {
      MaxMeaning(tcp.verifiedSteps);
    }
    forall s, last ensures After([s], last) == if s.index > last then [s] else [] {
      assert [s][..0] == [];
    }
  }
}
