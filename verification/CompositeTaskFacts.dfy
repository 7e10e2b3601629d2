/** What holds of every composite task over all its replans. */
module CompositeTaskFacts {
  import opened Domain
  import opened Recovery
  import opened SequenceSpec
  import opened SequenceFacts
  import opened CompositeTask
  import Compiler

  // ---- the pieces of a plan, injected refocus steps erased

  datatype Piece = Piece(root: StepId, spec: StepSpec)

  function Pieces(steps: seq<Step>): seq<Piece> {
    if steps == [] then []
    else (if Injected(steps[0].id) then [] else [Piece(Root(steps[0].id), steps[0].spec)]) + Pieces(steps[1..])
  }

  predicate DoneRecord(a: ActionRecord) { a.status == ActuationAccepted || a.status == VerifiedSuccess }

  /** The log entries of completed steps of the original plan. */
  function Completed(actions: seq<ActionRecord>): seq<ActionRecord> {
    if actions == [] then []
    else (if DoneRecord(actions[0]) && !Injected(actions[0].id) then [actions[0]] else []) + Completed(actions[1..])
  }

  function PiecesOf(actions: seq<ActionRecord>): (r: seq<Piece>)
    ensures |r| == |actions|
    ensures forall j :: 0 <= j < |r| ==> r[j] == Piece(Root(actions[j].id), actions[j].spec)
  {
    seq(|actions|, j requires 0 <= j < |actions| => Piece(Root(actions[j].id), actions[j].spec))
  }

  /** The pieces of the plan an action log says were completed. */
  function CompletedPieces(actions: seq<ActionRecord>): seq<Piece> { PiecesOf(Completed(actions)) }

  function NotDone(steps: seq<Step>): seq<Step> {
    if steps == [] then [] else (if Done(steps[0]) then [] else [steps[0]]) + NotDone(steps[1..])
  }

  /** The log keeps of each step of a run what became of it. */
  lemma {:induction false} RecordsExactly(steps: seq<Step>, j: nat)
    requires j < |steps|
    ensures var a, s := Records(steps)[j], steps[j];
            a.id == s.id && a.spec == s.spec && a.index == s.index && a.status == s.status && a.verdict == s.verdict
  {
    if j > 0 {
      RecordsExactly(steps[1..], j - 1);
    }
  }

  lemma {:induction false} PiecesConcat(a: seq<Step>, b: seq<Step>)
    ensures Pieces(a + b) == Pieces(a) + Pieces(b)
  {
    if a == [] {
      assert a + b == b;
    } else {
      assert (a + b)[0] == a[0] && (a + b)[1..] == a[1..] + b;
      PiecesConcat(a[1..], b);
    }
  }

  lemma {:induction false} CompletedConcat(a: seq<ActionRecord>, b: seq<ActionRecord>)
    ensures Completed(a + b) == Completed(a) + Completed(b)
  {
    if a == [] {
      assert a + b == b;
    } else {
      assert (a + b)[0] == a[0] && (a + b)[1..] == a[1..] + b;
      CompletedConcat(a[1..], b);
    }
  }

  lemma CompletedPiecesConcat(a: seq<ActionRecord>, b: seq<ActionRecord>)
    ensures CompletedPieces(a + b) == CompletedPieces(a) + CompletedPieces(b)
  {
    CompletedConcat(a, b);
  }

  lemma {:induction false} PiecesSame(a: seq<Step>, b: seq<Step>)
    requires |a| == |b|
    requires forall j :: 0 <= j < |a| ==> Root(a[j].id) == Root(b[j].id) && a[j].spec == b[j].spec
    ensures Pieces(a) == Pieces(b)
  {
    if a != [] {
      PiecesSame(a[1..], b[1..]);
    }
  }

  lemma {:induction false} NotDoneTail(steps: seq<Step>, k: nat)
    requires k <= |steps|
    requires forall j :: 0 <= j < |steps| ==> (Done(steps[j]) <==> j < k)
    ensures NotDone(steps) == steps[k..]
  {
    if steps != [] {
      NotDoneTail(steps[1..], if k == 0 then 0 else k - 1);
    }
  }

  /** The pieces of the first step, as a log or a plan tells them. */
  function HeadPiece(s: Step): seq<Piece> { if Injected(s.id) then [] else [Piece(Root(s.id), s.spec)] }

  lemma PiecesOfConcat(a: seq<ActionRecord>, b: seq<ActionRecord>)
    ensures PiecesOf(a + b) == PiecesOf(a) + PiecesOf(b)
  {}

  lemma CompletedHead(steps: seq<Step>)
    requires steps != []
    ensures CompletedPieces(Records(steps))
         == (if Done(steps[0]) then HeadPiece(steps[0]) else []) + CompletedPieces(Records(steps[1..]))
  {
    var log := Records(steps);
    assert log[1..] == Records(steps[1..]);
    var own := if DoneRecord(log[0]) && !Injected(log[0].id) then [log[0]] else [];
    assert Completed(log) == own + Completed(log[1..]);
    PiecesOfConcat(own, Completed(log[1..]));
  }

  lemma PiecesHead(steps: seq<Step>, k: nat)
    requires 0 < k <= |steps|
    ensures Pieces(steps[..k]) == HeadPiece(steps[0]) + Pieces(steps[1..][..k - 1])
  {
    assert steps[..k][1..] == steps[1..][..k - 1];
  }

  lemma {:induction false} CompletedFront(steps: seq<Step>, k: nat)
    requires k <= |steps|
    requires forall j :: 0 <= j < |steps| ==> (Done(steps[j]) <==> j < k)
    ensures CompletedPieces(Records(steps)) == Pieces(steps[..k])
  {
    if steps != [] {
      CompletedHead(steps);
      if k > 0 {
        CompletedFront(steps[1..], k - 1);
        PiecesHead(steps, k);
      } else {
        CompletedFront(steps[1..], 0);
      }
    }
  }

  /** Of steps that are done up to `k` and not done from there, the log completes the first k. */
  lemma SplitAtFailure(steps: seq<Step>, k: nat)
    requires k <= |steps|
    requires forall j :: 0 <= j < |steps| ==> (Done(steps[j]) <==> j < k)
    ensures CompletedPieces(Records(steps)) == Pieces(steps[..k])
    ensures NotDone(steps) == steps[k..]
  {
    CompletedFront(steps, k);
    NotDoneTail(steps, k);
  }

  /** The result is done up to step k, which is the failed index if there is one; its steps are
      the plan's. */
  predicate DoneTo(r: Progress, steps: seq<Step>, k: nat) {
    && |r.steps| == |steps| && k <= |steps|
    && (forall j :: 0 <= j < |steps| ==> (Done(r.steps[j]) <==> j < k))
    && (forall j :: 0 <= j < |steps| ==> SamePlan(steps[j], r.steps[j]))
    && (r.status == Success <==> k == |steps|)
    && (r.failedIndex.Some? ==> k == r.failedIndex.value < |steps|)
  }

  lemma DoneUpTo(r: Progress, plan: Sequence) returns (k: nat)
    requires Settled(r, plan) && plan.stopOnFailure
    ensures DoneTo(r, plan.steps, k)
  {
    k :| k <= |r.steps| && ShapeAt(r.steps, plan.stopOnFailure, k);
    if r.failedIndex.Some? {
      var f := r.failedIndex.value;
      assert !Done(r.steps[f]);
    }
  }

  lemma RunSplit(plan: Sequence, world: World, tick: nat) returns (k: nat)
    requires plan.stopOnFailure
    ensures var out := Execute(plan, NoEvaluator, world, tick);
            out.Returned? ==> DoneTo(out.result, plan.steps, k)
  {
    ExecutionIsTruthful(plan, NoEvaluator, world, tick);
    var out := Execute(plan, NoEvaluator, world, tick);
    if out.Returned? {
      k := DoneUpTo(out.result, plan);
    } else {
      k := 0;
    }
  }

  // ---- conservation

  /** What is completed, followed by what the current sequence still holds, is the plan. */
  ghost predicate Conserved(s: TaskState, whole: seq<Piece>) {
    && s.plan.stopOnFailure
    && CompletedPieces(s.actions) + Pieces(s.plan.steps) == whole
  }

  lemma ReplanKeepsPieces(plan: Sequence, failed: nat)
    requires failed < |plan.steps|
    ensures var repaired := Compiler.Replan(plan, failed, Some(InspectState));
            && repaired.Some?
            && repaired.value.stopOnFailure && repaired.value.maxRetries == 1
            && |repaired.value.steps| <= |plan.steps| - failed + 1
            && Pieces(repaired.value.steps) == Pieces(plan.steps[failed..])
  {
    var rest := plan.steps[failed..];
    var refocus := Compiler.Refocuses(Some(InspectState), plan.steps[failed]);
    var head := if refocus then [Compiler.RefocusStep(plan.steps[failed])] else [];
    var clones := Compiler.Clones(rest, |head|);
    PiecesSame(clones, rest);
    PiecesConcat(head, clones);
    if head != [] {
      assert head[1..] == [];
    }
  }

  lemma Regrouped(a: seq<Piece>, b: seq<Piece>, c: seq<Piece>)
    ensures (a + b) + c == a + (b + c)
  {}

  lemma PiecesSplit(steps: seq<Step>, k: nat)
    requires k <= |steps|
    ensures Pieces(steps[..k]) + Pieces(steps[k..]) == Pieces(steps)
  {
    PiecesConcat(steps[..k], steps[k..]);
    assert steps[..k] + steps[k..] == steps;
  }

  lemma LoggedConserves(s: TaskState, r: Progress, k: nat, whole: seq<Piece>)
    requires Conserved(s, whole) && DoneTo(r, s.plan.steps, k)
    ensures CompletedPieces(Logged(s, r).actions) + Pieces(r.steps[k..]) == whole
    ensures NotDone(r.steps) == r.steps[k..]
  {
    SplitAtFailure(r.steps, k);
    CompletedPiecesConcat(s.actions, Records(r.steps));
    PiecesSame(r.steps, s.plan.steps);
    PiecesSplit(r.steps, k);
    Regrouped(CompletedPieces(s.actions), Pieces(r.steps[..k]), Pieces(r.steps[k..]));
  }

  /** The steps a task still owes when it ended. */
  function Owed(run: TaskRun): seq<Step> {
    if run.end == TornDown then run.state.plan.steps else NotDone(run.state.plan.steps)
  }

  /** What a reaction may change of the logged state. */
  lemma ReactShape(s: TaskState, r: Progress, world: World)
    ensures var logged := Logged(s, r);
            match React(s, r, world)
            case Rerun(next) =>
              && s.replans < MaxReplans && r.status != Success && r.failedIndex.Some?
              && Compiler.Replan(logged.plan, r.failedIndex.value, Some(InspectState)) == Some(next.plan)
              && next == logged.(plan := next.plan, replans := s.replans + 1, tick := r.tick + 1)
              && !world(r.tick).cancel
            case Stop(run) =>
              && run.state == logged.(replans := run.state.replans, clarification := run.state.clarification,
                 tick := run.state.tick)
              && r.tick <= run.state.tick <= r.tick + 1
              && s.replans <= run.state.replans <= s.replans + 1
              && (run.end == TaskSucceeded <==> r.status == Success)
              && run.end != TornDown
              && (run.end == TaskWaits <==> r.status == PermissionDenied)
  {}

  ghost predicate Accounted(run: TaskRun, whole: seq<Piece>) {
    && run.state.plan.stopOnFailure
    && CompletedPieces(run.state.actions) + Pieces(Owed(run)) == whole
    && (run.end == TaskSucceeded ==> Owed(run) == [])
  }

  /** One reaction keeps the books. */
  lemma ReactConserves(s: TaskState, r: Progress, k: nat, world: World, whole: seq<Piece>)
    requires Conserved(s, whole) && DoneTo(r, s.plan.steps, k)
    ensures match React(s, r, world)
            case Rerun(next) => Conserved(next, whole)
            case Stop(run) => Accounted(run, whole)
  {
    ReactShape(s, r, world);
    LoggedConserves(s, r, k, whole);
    var logged := Logged(s, r);
    if React(s, r, world).Rerun? {
      ReplanKeepsPieces(logged.plan, k);
    }
  }

  lemma {:induction false} LoopConserves(s: TaskState, world: World, whole: seq<Piece>)
    requires s.replans <= MaxReplans && Conserved(s, whole)
    ensures var run := Loop(s, world);
            Accounted(run, whole)
    decreases MaxReplans - s.replans
  {
    var k := RunSplit(s.plan, world, s.tick);
    var out := Execute(s.plan, NoEvaluator, world, s.tick);
    if out.Returned? {
      ReactConserves(s, out.result, k, world, whole);
      var reaction := React(s, out.result, world);
      if reaction.Rerun? {
        LoopConserves(reaction.state, world, whole);
      }
    }
  }

  /** Conservation over a whole task. Whatever the environment answers, the steps the task's
      runs completed, in order and with refocus steps erased, followed by the steps it still
      owes, are exactly the original steps: none lost, repeated or reordered. A task that
      succeeds owes nothing. */
  lemma ReplanningIsLossless(plan: Sequence, world: World, tick: nat)
    requires plan.stopOnFailure
    ensures var run := RunTask(plan, world, tick);
            && CompletedPieces(run.state.actions) + Pieces(Owed(run)) == Pieces(plan.steps)
            && (run.end == TaskSucceeded ==> CompletedPieces(run.state.actions) == Pieces(plan.steps))
  {
    RunTaskIsLoop(plan, world, tick);
    LoopConserves(Begin(plan, tick), world, Pieces(plan.steps));
    var run := RunTask(plan, world, tick);
    if run.end == TaskSucceeded {
      assert Pieces([]) == [];
    }
  }
}
