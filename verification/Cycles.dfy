/** Any number of run, suspend and resume cycles on the same goal: what the log of a task then says,
    and which of its steps are never run again. */
module Cycles {
  import opened Domain
  import opened SequenceSpec
  import opened SequenceTrace
  import opened CompositeTask
  import opened CompositeTaskFacts
  import opened CompositeTaskSafety
  import opened Goals
  import opened GoalFacts
  import opened GoalAccounts
  import opened Resumption
  import opened ResumptionFacts
  import opened UndoEffects
  import opened LastRun
  import opened LostWork
  import opened TaskTales
  import opened RepeatedWork
  import opened StaleRow
  import CancelledGoal

  /** One run, and the context with which the goal is resumed after it. */
  datatype Cycle = Cycle(world: World, context: Option<Context>)

  /** The goal resumed after one cycle, ready to run again. */
  function NextStart(s: RunState, c: Cycle): RunState {
    var t := Goals.Run(s, c.world);
    ResumedState(t.memory, c.context, t)
  }

  function AfterCycles(s: RunState, cycles: seq<Cycle>): RunState
    decreases |cycles|
  {
    if cycles == [] then s else AfterCycles(NextStart(s, cycles[0]), cycles[1..])
  }

  /** A goal whose uncompleted tasks have nothing verified, as compiled or as resumed. */
  ghost predicate Startable(s: RunState) { Ready(s) && Unstarted(s.memory) }

  /** What is left of a task's plan. */
  function OwedBy(t: Task): seq<Piece> { if t.state == TaskCompleted then [] else Pieces(StepsOf(t)) }

  predicate Extends(before: Task, after: Task) {
    |before.actions| <= |after.actions| && after.actions[..|before.actions|] == before.actions
  }

  /** The entries that were added to the log. */
  function Added(before: Task, after: Task): seq<ActionRecord>
    requires Extends(before, after)
  {
    after.actions[|before.actions|..]
  }

  /** The books of a stretch of work: `done` is a prefix of what was owed, the first `kept` pieces of
      it are owed no longer, and what comes behind them was completed, but not verified. */
  ghost predicate Balanced(entries: seq<ActionRecord>, before: seq<Piece>, after: seq<Piece>, kept: nat) {
    && kept <= |Completed(entries)| <= |before|
    && CompletedPieces(entries) == before[..|Completed(entries)|]
    && after == before[kept..]
    && forall x :: kept <= x < |Completed(entries)| ==> Completed(entries)[x].status != VerifiedSuccess
  }

  // ---- one sequence run

  lemma {:induction false} RecordsConcat(a: seq<Step>, b: seq<Step>)
    ensures Records(a + b) == Records(a) + Records(b)
  {
    if a == [] {
      assert a + b == b;
    } else {
      assert (a + b)[0] == a[0] && (a + b)[1..] == a[1..] + b;
      RecordsConcat(a[1..], b);
    }
  }

  lemma {:induction false} UnverifiedEntries(steps: seq<Step>)
    requires NoneVerified(steps)
    ensures forall a :: a in Completed(Records(steps)) ==> a.status != VerifiedSuccess
  {
    if steps != [] {
      assert Records(steps)[1..] == Records(steps[1..]);
      UnverifiedEntries(steps[1..]);
    }
  }

  lemma SameCount(steps: seq<Step>, k: nat)
    requires k <= |steps| && forall j :: 0 <= j < k ==> Done(steps[j])
    ensures CompletedPieces(Records(steps[..k])) == Pieces(steps[..k])
  {
    var front := steps[..k];
    SplitAtFailure(front, k);
    assert front[..k] == front;
  }

  /** The entries of a run whose first `cut` steps are cut off when the goal is resumed. */
  lemma ResultBalanced(steps: seq<Step>, k: nat, cut: nat)
    requires cut <= k <= |steps| && (forall j :: 0 <= j < |steps| ==> (Done(steps[j]) <==> j < k))
    requires NoneVerified(steps[cut..])
    ensures Balanced(Records(steps), Pieces(steps), Pieces(steps[cut..]), |Pieces(steps[..cut])|)
  {
    var front, rest := steps[..cut], steps[cut..];
    assert steps == front + rest;
    RecordsConcat(front, rest);
    CompletedConcat(Records(front), Records(rest));
    SameCount(steps, cut);
    UnverifiedEntries(rest);
    SplitAtFailure(steps, k);
    PiecesSplit(steps, k);
    PiecesSplit(steps, cut);
  }

  lemma Shifted(front: seq<Piece>, back: seq<Piece>, m: nat)
    requires m <= |back|
    ensures (front + back)[|front| + m..] == back[m..]
    ensures (front + back)[..|front| + m] == front + back[..m]
  {}

  /** Entries that are kept, before those of a balanced stretch. */
  lemma BalancedAfter(first: seq<ActionRecord>, entries: seq<ActionRecord>, whole: seq<Piece>,
                      before: seq<Piece>, after: seq<Piece>, kept: nat)
    requires CompletedPieces(first) + before == whole && Balanced(entries, before, after, kept)
    ensures Balanced(first + entries, whole, after, |Completed(first)| + kept)
  {
    CompletedConcat(first, entries);
    CompletedPiecesConcat(first, entries);
    Shifted(CompletedPieces(first), before, kept);
    Shifted(CompletedPieces(first), before, |Completed(entries)|);
  }

  lemma NothingAdded(before: seq<Piece>)
    ensures Balanced([], before, before, 0)
  {
    assert before[0..] == before && before[..0] == [];
  }

  // ---- one task

  lemma RestPieces(before: seq<Step>, after: seq<Step>, cut: nat)
    requires CutOff(before, after, cut)
    ensures Pieces(before[cut..]) == Pieces(after)
  {
    var rest := before[cut..];
    assert forall j :: 0 <= j < |rest| ==> rest[j] == before[cut + j];
    PiecesSame(rest, after);
  }

  lemma UnverifiedRest(plan: Sequence, after: seq<Step>, cut: nat)
    requires PlanOk(plan) && CutOff(plan.steps, after, cut)
    ensures NoneVerified(plan.steps[cut..]) && Pieces(plan.steps[cut..]) == Pieces(after)
  {
    var rest := plan.steps[cut..];
    forall j | 0 <= j < |rest| ensures !IsVerified(rest[j]) {
      assert rest[j] == plan.steps[cut + j] && !CountsVerified(plan.steps[cut + j]);
    }
    RestPieces(plan.steps, after, cut);
  }

  /** The last run of the task returned. */
  lemma ReturnedBalanced(steps: seq<Step>, k: nat, after: seq<Step>, cut: nat, entries: seq<ActionRecord>)
    requires k <= |steps| && (forall j :: 0 <= j < |steps| ==> (Done(steps[j]) <==> j < k))
    requires CutOff(steps, after, cut) && NoneVerified(steps[cut..]) && Pieces(steps[cut..]) == Pieces(after)
    requires entries == Records(steps)
    ensures Balanced(entries, Pieces(steps), Pieces(after), |Pieces(steps[..cut])|)
  {
    assert k < |steps| ==> !Done(steps[k]);
    ResultBalanced(steps, k, cut);
  }

  /** It was torn down, or did not take place: the log says nothing of it. */
  lemma UnloggedBalanced(steps: seq<Step>, after: seq<Step>, cut: nat)
    requires NoneVerified(steps) && CutOff(steps, after, cut) && Pieces(steps[cut..]) == Pieces(after)
    ensures Balanced([], Pieces(steps), Pieces(after), 0)
  {
    assert forall j :: 0 <= j < |steps| ==> !CountsVerified(steps[j]);
    assert steps[0..] == steps;
    NothingAdded(Pieces(steps));
  }

  /** The last run of the task, and what a resumption cuts off of its steps. */
  lemma LastBalanced(run: TaskRun, from: TaskState, world: World, after: seq<Step>, cut: nat)
    returns (entries: seq<ActionRecord>, kept: nat)
    requires LeftBy(run, from, world) && PlanOk(run.state.plan) && CutOff(run.state.plan.steps, after, cut)
    requires NoneVerified(from.plan.steps)
    ensures run.state.actions == from.actions + entries
    ensures Balanced(entries, Pieces(from.plan.steps), Pieces(after), kept)
  {
    var out, steps := Execute(from.plan, NoEvaluator, world, from.tick), run.state.plan.steps;
    UnverifiedRest(run.state.plan, after, cut);
    if out.Returned? {
      entries, kept := Records(steps), |Pieces(steps[..cut])|;
      SameIds(run, from, world);
      PiecesSame(steps, from.plan.steps);
      var k := RunSplit(from.plan, world, from.tick);
      ReturnedBalanced(steps, k, after, cut, entries);
    } else {
      entries, kept := [], 0;
      UnloggedBalanced(steps, after, cut);
    }
  }

  lemma TaskBalanced(plan: Sequence, world: World, tick: nat, after: seq<Step>, cut: nat) returns (kept: nat)
    requires PlanOk(plan) && Unfinished(plan.steps) && WellIdentified(plan.steps) && NoneVerified(plan.steps)
    requires CutOff(RunTask(plan, world, tick).state.plan.steps, after, cut)
    ensures Balanced(RunTask(plan, world, tick).state.actions, Pieces(plan.steps), Pieces(after), kept)
  {
    var run, from := RunTask(plan, world, tick), LastStartOf(plan, world, tick);
    LastRunOf(plan, world, tick);
    TaskPlan(plan, world, tick);
    LastUnverified(Begin(plan, tick), world);
    var entries, own := LastBalanced(run, from, world, after, cut);
    BalancedAfter(from.actions, entries, Pieces(plan.steps), Pieces(from.plan.steps), Pieces(after), own);
    kept := |Completed(from.actions)| + own;
  }

  // ---- one cycle

  /** What a cycle does to a task. */
  ghost predicate CycleBooks(before: Task, after: Task) {
    && Extends(before, after) && after.work.Composite?
    && exists kept: nat :: Balanced(Added(before, after), OwedBy(before), OwedBy(after), kept)
  }

  lemma Booked(before: Task, after: Task, entries: seq<ActionRecord>, kept: nat)
    requires after.actions == before.actions + entries && after.work.Composite?
    requires Balanced(entries, OwedBy(before), OwedBy(after), kept)
    ensures CycleBooks(before, after)
  {
    assert Added(before, after) == entries;
  }

  /** The task was completed by the run. */
  lemma CompletedBooks(before: Task, after: Task)
    requires Account(before, after) && before.work.Composite?
    requires before.state != TaskCompleted && after.state == TaskCompleted
    ensures CycleBooks(before, after)
  {
    var entries, owed :| Books(before, after, entries, owed);
    var whole := OwedBy(before);
    assert CompletedPieces(entries) == whole;
    assert whole[|whole|..] == [] && whole[..|whole|] == whole;
    Booked(before, after, entries, |whole|);
  }

  /** An unfinished task of which nothing is verified. */
  ghost predicate Open(t: Task) {
    && t.work.Composite? && t.state != TaskCompleted && TaskOk(t)
    && WellIdentified(StepsOf(t)) && NoneVerified(StepsOf(t))
  }

  /** The task's sequence ran, and resuming leaves it unfinished. */
  lemma StartedBooks(before: Task, after: Task, world: World, start: nat, cut: nat)
    requires Open(before) && after.work.Composite? && after.state != TaskCompleted
    requires var run := RunTask(before.work.plan, world, start);
      && after.actions == before.actions + run.state.actions
      && CutOff(run.state.plan.steps, StepsOf(after), cut)
    ensures CycleBooks(before, after)
  {
    var kept := TaskBalanced(before.work.plan, world, start, StepsOf(after), cut);
    Booked(before, after, RunTask(before.work.plan, world, start).state.actions, kept);
  }

  lemma IdleBalanced(before: seq<Step>, after: seq<Step>, cut: nat)
    requires NoneVerified(before) && CutOff(before, after, cut)
    ensures Balanced([], Pieces(before), Pieces(after), 0)
  {
    RestPieces(before, after, cut);
    UnloggedBalanced(before, after, cut);
  }

  /** It did not run. */
  lemma IdleBooks(before: Task, after: Task, cut: nat)
    requires Open(before) && after.work.Composite? && after.state != TaskCompleted
    requires after.actions == before.actions && CutOff(StepsOf(before), StepsOf(after), cut)
    ensures CycleBooks(before, after)
  {
    IdleBalanced(StepsOf(before), StepsOf(after), cut);
    assert before.actions == before.actions + [];
    Booked(before, after, [], 0);
  }

  lemma OpenBefore(s: RunState, k: nat)
    requires Startable(s) && k < |s.memory.tasks| && s.memory.tasks[k].work.Composite?
    requires s.memory.tasks[k].state != TaskCompleted
    ensures Open(s.memory.tasks[k])
  {
    var t := s.memory.tasks[k];
    assert TaskOk(t) && Untried(t);
    forall j | 0 <= j < |StepsOf(t)| ensures !IsVerified(StepsOf(t)[j]) {
      assert StepsOf(t)[j] in StepsOf(t);
    }
  }

  /** The task is unfinished behind the run, and left with `after` to do. */
  lemma UnfinishedBooks(s: RunState, world: World, k: nat, after: Task, cut: nat)
    requires Startable(s) && k < |s.memory.tasks| && s.memory.tasks[k].work.Composite?
    requires s.memory.tasks[k].state != TaskCompleted && after.state != TaskCompleted
    requires k < |Goals.Run(s, world).memory.tasks| && after.work.Composite?
    requires after.actions == Goals.Run(s, world).memory.tasks[k].actions
    requires CutOff(StepsOf(Goals.Run(s, world).memory.tasks[k]), StepsOf(after), cut)
    ensures CycleBooks(s.memory.tasks[k], after)
  {
    RunTold(s, world, k);
    OpenBefore(s, k);
    if StartOf(s, k, world).Some? {
      StartedBooks(s.memory.tasks[k], after, world, StartOf(s, k, world).value, cut);
    } else {
      IdleBooks(s.memory.tasks[k], after, cut);
    }
  }

  /** What resuming makes of an unfinished task. */
  lemma CutByResume(m: Memory, r: Memory, first: nat, k: nat) returns (cut: nat)
    requires MemoryOk(m) && Continues(m, r, first) && k < |m.tasks| && m.tasks[k].state != TaskCompleted
    ensures CutOff(StepsOf(m.tasks[k]), StepsOf(r.tasks[k]), cut)
    ensures r.tasks[k] == m.tasks[k].(work := r.tasks[k].work)
  {
    if k == first {
      cut :| CutOff(StepsOf(m.tasks[first]), StepsOf(r.tasks[first]), cut);
    } else {
      cut := 0;
      LaterUntried(m, first, k);
      var steps := StepsOf(m.tasks[k]);
      forall j | 0 <= j < |steps| ensures !CountsVerified(steps[j]) {
        assert steps[j] in steps;
      }
    }
  }

  lemma CutKeepsKind(t: Task, tcp: TaskCheckpoint)
    ensures Cut(t, tcp).0.work.Composite? <==> t.work.Composite?
  {}

  lemma FoundKeepsKind(m: Memory, tcps: seq<TaskCheckpoint>, r: Memory, boundary: Boundary, first: nat, k: nat)
    requires first <= |m.tasks| == |tcps| && Found(m, tcps, r, boundary, first) && k < |m.tasks|
    ensures |r.tasks| == |m.tasks| && (r.tasks[k].work.Composite? <==> m.tasks[k].work.Composite?)
  {
    if first < |m.tasks| {
      CutKeepsKind(m.tasks[first], tcps[first]);
    }
  }

  lemma ResumedWork(m: Memory, context: Option<Context>, k: nat)
    requires MemoryOk(m) && k < |m.tasks|
    ensures var r := Resume(Checkpoint(m), Some(m), context).0;
            |r.tasks| == |m.tasks| && (r.tasks[k].work.Composite? <==> m.tasks[k].work.Composite?)
  {
    var first: nat :| Frontier(m.tasks, m.completedIds, first);
    WalkFinds(m, Initial(Checkpoint(m), Some(m), context), first);
    var (r, boundary) := Walk(CheckpointTasks(m.tasks), 0, Initial(Checkpoint(m), Some(m), context));
    FoundKeepsKind(m, CheckpointTasks(m.tasks), r, boundary, first, k);
  }

  lemma RunKeepsTask(s: RunState, world: World, k: nat)
    requires Startable(s) && k < |s.memory.tasks|
    ensures var t := Goals.Run(s, world);
            && |t.memory.tasks| == |s.memory.tasks| && Account(s.memory.tasks[k], t.memory.tasks[k])
            && (t.memory.tasks[k].work.Composite? <==> s.memory.tasks[k].work.Composite?)
  {
    GoalIsAccounted(s, world);
  }

  /** One cycle, task by task. */
  lemma CycleBalances(s: RunState, c: Cycle, k: nat)
    requires Startable(s) && k < |s.memory.tasks| && s.memory.tasks[k].work.Composite?
    ensures var u := NextStart(s, c);
            |u.memory.tasks| == |s.memory.tasks| && CycleBooks(s.memory.tasks[k], u.memory.tasks[k])
  {
    var t, u := Goals.Run(s, c.world), NextStart(s, c);
    RunKeepsTask(s, c.world, k);
    RunMemoryOk(s, c.world);
    var first := ResumeContinues(t.memory, c.context);
    ResumedWork(t.memory, c.context, k);
    var before, after := s.memory.tasks[k], u.memory.tasks[k];
    if t.memory.tasks[k].state != TaskCompleted {
      var cut := CutByResume(t.memory, u.memory, first, k);
      UnfinishedBooks(s, c.world, k, after, cut);
    } else if before.state == TaskCompleted {
      assert after == before && before.actions == before.actions + [];
      NothingAdded([]);
      Booked(before, after, [], 0);
    } else {
      CompletedBooks(before, after);
    }
  }

  // ---- ready for the next cycle

  lemma WellIdentifiedRest(before: seq<Step>, after: seq<Step>, cut: nat)
    requires CutOff(before, after, cut) && WellIdentified(before)
    ensures WellIdentified(after)
  {
    RestPieces(before, after, cut);
    PiecesSplit(before, cut);
    RootsConcat(Pieces(before[..cut]), Pieces(before[cut..]));
    var roots, n := RootsOf(Pieces(before)), |Pieces(before[..cut])|;
    assert RootsOf(Pieces(after)) == roots[n..];
    forall s | s in after && Injected(s.id) ensures s.spec.compensation.None? {
      var j :| 0 <= j < |after| && after[j] == s;
      assert SamePlan(before[cut + j], after[j]) && before[cut + j] in before;
    }
  }

  /** A run leaves the identities of a task's steps unique. */
  lemma RunIdentified(s: RunState, world: World, k: nat)
    requires Ready(s) && k < |s.memory.tasks|
    ensures k < |Goals.Run(s, world).memory.tasks|
    ensures WellIdentified(StepsOf(Goals.Run(s, world).memory.tasks[k]))
  {
    RunTold(s, world, k);
    var start := StartOf(s, k, world);
    if start.Some? {
      assert TaskOk(s.memory.tasks[k]);
      TaskIdentified(s.memory.tasks[k].work.plan, world, start.value);
    }
  }

  lemma TaskIdentified(plan: Sequence, world: World, tick: nat)
    requires plan.stopOnFailure && WellIdentified(plan.steps)
    ensures WellIdentified(RunTask(plan, world, tick).state.plan.steps)
  {
    var run, from := RunTask(plan, world, tick), LastStartOf(plan, world, tick);
    LastRunOf(plan, world, tick);
    SameIds(run, from, world);
    StillIdentified(from, Pieces(plan.steps));
    SameIdentified(from.plan.steps, run.state.plan.steps);
  }

  /** Cut down, a task has nothing verified. */
  lemma CutIsUntried(t: Task, index: nat)
    requires TaskOk(t) && t.state != TaskCompleted
    ensures Untried(Cut(t, CheckpointTask(t, index)).0)
  {
    var steps := StepsOf(t);
    IndicesEmpty(steps, CountsVerified);
    if IndicesOf(steps, CountsVerified) != [] {
      var last := VerifiedPrefix(t.work.plan);
      CutTo(t, CheckpointTask(t, index), last);
    } else {
      forall s | s in steps ensures !IsVerified(s) {
        var j :| 0 <= j < |steps| && steps[j] == s;
        assert !CountsVerified(steps[j]);
      }
    }
  }

  lemma ResumedIsUnstarted(m: Memory, context: Option<Context>)
    requires MemoryOk(m)
    ensures Unstarted(Resume(Checkpoint(m), Some(m), context).0)
  {
    var first: nat :| Frontier(m.tasks, m.completedIds, first);
    WalkFinds(m, Initial(Checkpoint(m), Some(m), context), first);
    if first < |m.tasks| {
      CutIsUntried(m.tasks[first], first);
    }
  }

  lemma ResumedIdentified(m: Memory, r: Memory, first: nat, k: nat)
    requires MemoryOk(m) && Continues(m, r, first) && k < |m.tasks| && WellIdentified(StepsOf(m.tasks[k]))
    ensures k < |r.tasks| && WellIdentified(StepsOf(r.tasks[k]))
  {
    if k == first {
      var cut: nat :| CutOff(StepsOf(m.tasks[first]), StepsOf(r.tasks[first]), cut);
      WellIdentifiedRest(StepsOf(m.tasks[k]), StepsOf(r.tasks[k]), cut);
    }
  }

  /** A resumed goal can be run, suspended and resumed again with all that is proved of a first run. */
  lemma CycleKeepsStartable(s: RunState, c: Cycle)
    requires Startable(s)
    ensures Startable(NextStart(s, c))
  {
    var t, u := Goals.Run(s, c.world), NextStart(s, c);
    RunMemoryOk(s, c.world);
    var first := ResumeContinues(t.memory, c.context);
    ResumedIsUnstarted(t.memory, c.context);
    forall k | 0 <= k < |u.memory.tasks| ensures WellIdentified(StepsOf(u.memory.tasks[k])) {
      GoalIsAccounted(s, c.world);
      RunIdentified(s, c.world, k);
      ResumedIdentified(t.memory, u.memory, first, k);
    }
  }

  // ---- any number of cycles

  /** The pieces of the log that are neither repeated later in it nor owed still. */
  function Final(log: seq<Piece>, owed: seq<Piece>): seq<Piece> {
    if log == [] then []
    else (if log[0] in log[1..] || log[0] in owed then [] else [log[0]]) + Final(log[1..], owed)
  }

  lemma {:induction false} FinalMembers(log: seq<Piece>, owed: seq<Piece>)
    ensures forall x :: x in Final(log, owed) || x in owed <==> x in log || x in owed
  {
    if log != [] {
      FinalMembers(log[1..], owed);
      assert log == [log[0]] + log[1..];
    }
  }

  lemma {:induction false} FinalDrops(again: seq<Piece>, rest: seq<Piece>, owed: seq<Piece>)
    requires forall j :: 0 <= j < |again| ==> again[j] in rest || again[j] in owed
    ensures Final(again + rest, owed) == Final(rest, owed)
  {
    if again == [] {
      assert again + rest == rest;
    } else {
      var all := again + rest;
      assert all[0] == again[0] && all[1..] == again[1..] + rest;
      FinalDrops(again[1..], rest, owed);
    }
  }

  lemma {:induction false} FinalKeeps(kept: seq<Piece>, rest: seq<Piece>, owed: seq<Piece>)
    requires forall i, j :: 0 <= i < j < |kept| ==> kept[i] != kept[j]
    requires forall j :: 0 <= j < |kept| ==> kept[j] !in rest && kept[j] !in owed
    ensures Final(kept + rest, owed) == kept + Final(rest, owed)
  {
    if kept == [] {
      assert kept + rest == rest;
    } else {
      var all := kept + rest;
      assert all[0] == kept[0] && all[1..] == kept[1..] + rest;
      assert kept[0] !in kept[1..];
      FinalKeeps(kept[1..], rest, owed);
      assert kept == [kept[0]] + kept[1..];
    }
  }

  lemma DistinctPieces(pieces: seq<Piece>, kept: nat)
    requires Distinct(RootsOf(pieces)) && kept <= |pieces|
    ensures forall i, j :: 0 <= i < j < |pieces| ==> pieces[i] != pieces[j]
    ensures forall j :: 0 <= j < kept ==> pieces[j] !in pieces[kept..]
  {
    var roots := RootsOf(pieces);
    forall i, j | 0 <= i < j < |pieces| ensures pieces[i] != pieces[j] {
      assert roots[i] != roots[j];
    }
  }

  lemma InOwed(later: seq<Piece>, owed: seq<Piece>, rest: seq<Piece>, p: Piece)
    requires Final(later, owed) + owed == rest
    ensures p in later || p in owed <==> p in rest
  {
    FinalMembers(later, owed);
    assert p in Final(later, owed) + owed <==> p in Final(later, owed) || p in owed;
  }

  lemma FrontJoins(front: seq<Piece>, again: seq<Piece>, later: seq<Piece>, owed: seq<Piece>, rest: seq<Piece>)
    requires Final(later, owed) + owed == rest && again <= rest
    requires forall i, j :: 0 <= i < j < |front| ==> front[i] != front[j]
    requires forall j :: 0 <= j < |front| ==> front[j] !in rest
    ensures Final(front + (again + later), owed) == front + Final(later, owed)
  {
    forall j | 0 <= j < |again| ensures again[j] in later || again[j] in owed {
      InOwed(later, owed, rest, again[j]);
      assert again[j] == rest[j];
    }
    FinalDrops(again, later, owed);
    forall j | 0 <= j < |front| ensures front[j] !in again + later && front[j] !in owed {
      InOwed(later, owed, rest, front[j]);
      NotInPrefix(again, rest, front[j]);
    }
    FinalKeeps(front, again + later, owed);
  }

  lemma NotInPrefix(part: seq<Piece>, all: seq<Piece>, p: Piece)
    requires part <= all && p !in all
    ensures p !in part
  {}

  lemma ApartPieces(front: seq<Piece>, rest: seq<Piece>)
    requires Distinct(RootsOf(front + rest))
    ensures forall i, j :: 0 <= i < j < |front| ==> front[i] != front[j]
    ensures forall j :: 0 <= j < |front| ==> front[j] !in rest
  {
    var all := front + rest;
    DistinctPieces(all, |front|);
    assert all[|front|..] == rest;
    assert forall j :: 0 <= j < |front| ==> all[j] == front[j];
  }

  /** The pieces `front` are owed no longer, `again` were logged but still are, and the rest of the log
      accounts for them. */
  lemma LogsJoin(front: seq<Piece>, again: seq<Piece>, rest: seq<Piece>, later: seq<Piece>, owed: seq<Piece>)
    requires Distinct(RootsOf(front + rest)) && again <= rest && Final(later, owed) + owed == rest
    ensures Final((front + again) + later, owed) + owed == front + rest
  {
    ApartPieces(front, rest);
    FrontJoins(front, again, later, owed, rest);
    assert (front + again) + later == front + (again + later);
    assert (front + Final(later, owed)) + owed == front + (Final(later, owed) + owed);
  }

  lemma Slices(whole: seq<Piece>, kept: nat, n: nat)
    requires kept <= n <= |whole|
    ensures whole == whole[..kept] + whole[kept..] && whole[..n] == whole[..kept] + whole[kept..n]
    ensures whole[kept..n] <= whole[kept..]
  {}

  /** What the log of a task has gained: with the entries dropped that are repeated later or owed
      still, it reads as the steps that are no longer owed, in their order. */
  ghost predicate ChainBooks(before: Task, after: Task) {
    && Extends(before, after) && after.work.Composite?
    && Final(CompletedPieces(Added(before, after)), OwedBy(after)) + OwedBy(after) == OwedBy(before)
  }

  lemma ChainStarts(t: Task)
    requires t.work.Composite?
    ensures ChainBooks(t, t)
  {
    assert Added(t, t) == [];
  }

  lemma AddedJoins(before: Task, middle: Task, after: Task)
    requires Extends(before, middle) && Extends(middle, after)
    ensures Extends(before, after) && Added(before, after) == Added(before, middle) + Added(middle, after)
  {}

  lemma BalancedJoins(first: seq<ActionRecord>, later: seq<ActionRecord>, before: seq<Piece>, middle: seq<Piece>,
                      owed: seq<Piece>, kept: nat)
    requires Balanced(first, before, middle, kept) && Distinct(RootsOf(before))
    requires Final(CompletedPieces(later), owed) + owed == middle
    ensures Final(CompletedPieces(first + later), owed) + owed == before
  {
    var n := |Completed(first)|;
    CompletedPiecesConcat(first, later);
    Slices(before, kept, n);
    LogsJoin(before[..kept], before[kept..n], before[kept..], CompletedPieces(later), owed);
  }

  lemma ChainJoins(before: Task, middle: Task, after: Task)
    requires CycleBooks(before, middle) && ChainBooks(middle, after) && Distinct(RootsOf(OwedBy(before)))
    ensures ChainBooks(before, after)
  {
    var first, later := Added(before, middle), Added(middle, after);
    var kept: nat :| Balanced(first, OwedBy(before), OwedBy(middle), kept);
    AddedJoins(before, middle, after);
    BalancedJoins(first, later, OwedBy(before), OwedBy(middle), OwedBy(after), kept);
  }

  lemma OwedDistinct(s: RunState, k: nat)
    requires Startable(s) && k < |s.memory.tasks|
    ensures Distinct(RootsOf(OwedBy(s.memory.tasks[k])))
  {
    assert WellIdentified(StepsOf(s.memory.tasks[k]));
  }

  /** Any number of cycles, torn-down runs included: of every task, the log that was gained and the
      steps still owed make up the original steps. With later repetitions counted once, each step is
      either completed, in its place in the order, or still owed, and never both. */
  lemma {:induction false} CyclesAreLossless(s: RunState, cycles: seq<Cycle>, k: nat)
    requires Startable(s) && k < |s.memory.tasks| && s.memory.tasks[k].work.Composite?
    ensures var u := AfterCycles(s, cycles);
            Startable(u) && |u.memory.tasks| == |s.memory.tasks| && ChainBooks(s.memory.tasks[k], u.memory.tasks[k])
    decreases |cycles|
  {
    if cycles == [] {
      ChainStarts(s.memory.tasks[k]);
    } else {
      var next := NextStart(s, cycles[0]);
      CycleBalances(s, cycles[0], k);
      CycleKeepsStartable(s, cycles[0]);
      CyclesAreLossless(next, cycles[1..], k);
      OwedDistinct(s, k);
      ChainJoins(s.memory.tasks[k], next.memory.tasks[k], AfterCycles(next, cycles[1..]).memory.tasks[k]);
    }
  }

  lemma {:induction false} OneMoreCycle(s: RunState, cycles: seq<Cycle>, c: Cycle)
    ensures AfterCycles(s, cycles + [c]) == NextStart(AfterCycles(s, cycles), c)
    decreases |cycles|
  {
    var all := cycles + [c];
    if cycles == [] {
      assert all[1..] == [];
    } else {
      assert all[0] == cycles[0] && all[1..] == cycles[1..] + [c];
      OneMoreCycle(NextStart(s, cycles[0]), cycles[1..], c);
    }
  }

  /** When a goal is reported complete after any number of cycles, the log of each of its unfinished
      composite tasks has gained, later repetitions counted once, exactly the steps of its plan, in
      their order. */
  lemma CompletedAfterCycles(s: RunState, cycles: seq<Cycle>, world: World, k: nat)
    requires Startable(s) && k < |s.memory.tasks| && s.memory.tasks[k].work.Composite?
    requires s.memory.tasks[k].state != TaskCompleted
    requires CancelledGoal.EndsWith(Goals.Run(AfterCycles(s, cycles), world), GoalCompletedEvent)
    ensures var t := Goals.Run(AfterCycles(s, cycles), world);
            && k < |t.memory.tasks| && Extends(s.memory.tasks[k], t.memory.tasks[k])
            && Final(CompletedPieces(Added(s.memory.tasks[k], t.memory.tasks[k])), [])
               == Pieces(StepsOf(s.memory.tasks[k]))
  {
    var u, c := AfterCycles(s, cycles), Cycle(world, None);
    var t := Goals.Run(u, world);
    CyclesAreLossless(s, cycles, k);
    CyclesAreLossless(s, cycles + [c], k);
    OneMoreCycle(s, cycles, c);
    RunKeepsTask(u, world, k);
    RunMemoryOk(u, world);
    CompletedTasks(u, world);
    var first := ResumeContinues(t.memory, None);
    var v := NextStart(u, c);
    assert v.memory.tasks[k] == t.memory.tasks[k];
    var log := Final(CompletedPieces(Added(s.memory.tasks[k], t.memory.tasks[k])), []);
    assert log + [] == log;
  }

  lemma CompletedTasks(s: RunState, world: World)
    requires MemoryOk(s.memory) && s.emitted == []
    requires CancelledGoal.EndsWith(Goals.Run(s, world), GoalCompletedEvent)
    ensures AllCompleted(Goals.Run(s, world).memory.tasks)
  {
    RunStream(s, world);
    var t := Goals.Run(s, world);
    assert EntryOk(t.emitted[|t.emitted| - 1], t.hasStore, t.works);
  }

  // ---- what is verified is final

  lemma OwedShrinks(before: Task, after: Task, p: Piece)
    requires ChainBooks(before, after) && p in OwedBy(after)
    ensures p in OwedBy(before)
  {}

  /** A step that one cycle completes and verifies is never actuated again, however many cycles
      follow. */
  lemma VerifiedIsFinal(s: RunState, c: Cycle, cycles: seq<Cycle>, world: World, k: nat, x: nat, g: GoalEffect)
    requires Startable(s) && k < |s.memory.tasks| && s.memory.tasks[k].work.Composite?
    requires var u := NextStart(s, c);
      && k < |u.memory.tasks| && Extends(s.memory.tasks[k], u.memory.tasks[k])
      && var done := Completed(Added(s.memory.tasks[k], u.memory.tasks[k]));
         x < |done| && done[x].status == VerifiedSuccess
    requires g in Goals.Run(AfterCycles(NextStart(s, c), cycles), world).effects
    requires g.task == k && g.effect.Forward? && !Injected(g.effect.id)
    ensures var done := Completed(Added(s.memory.tasks[k], NextStart(s, c).memory.tasks[k]));
            Root(g.effect.id) != Root(done[x].id)
  {
    var next := NextStart(s, c);
    var before, middle := s.memory.tasks[k], next.memory.tasks[k];
    CycleBalances(s, c, k);
    CycleKeepsStartable(s, c);
    CyclesAreLossless(next, cycles, k);
    OwedDistinct(s, k);
    var u := AfterCycles(next, cycles);
    GoalIsAccounted(u, world);
    assert EffectOk(g, u.memory, world, u.tick);
    var spec :| Piece(Root(g.effect.id), spec) in Pieces(StepsOf(u.memory.tasks[k]));
    OwedShrinks(middle, u.memory.tasks[k], Piece(Root(g.effect.id), spec));
    var kept: nat :| Balanced(Added(before, middle), OwedBy(before), OwedBy(middle), kept);
    KeptIsApart(Added(before, middle), OwedBy(before), OwedBy(middle), kept, x, Piece(Root(g.effect.id), spec));
  }

  lemma KeptIsApart(entries: seq<ActionRecord>, before: seq<Piece>, after: seq<Piece>, kept: nat, x: nat, p: Piece)
    requires Balanced(entries, before, after, kept) && Distinct(RootsOf(before)) && p in after
    requires x < |Completed(entries)| && Completed(entries)[x].status == VerifiedSuccess
    ensures p.root != Root(Completed(entries)[x].id)
  {
    var y :| 0 <= y < |after| && after[y] == p;
    var roots := RootsOf(before);
    assert before[kept + y] == p && x < kept;
    assert CompletedPieces(entries)[x] == before[x];
    assert roots[x] != roots[kept + y];
  }
}
