/** The evidence behind a task's outcome, the work it does and the effects it may have. */
module CompositeTaskTrace {
  import opened Domain
  import opened SequenceSpec
  import opened SequenceFacts
  import opened SequenceTrace
  import opened CompositeTask
  import opened CompositeTaskFacts
  import Compiler

  // ---- evidence

  predicate BackedRecord(a: ActionRecord) {
    && (a.status == VerifiedSuccess ==> SaysTrue(a.verdict))
    && (a.status == ActuationAccepted ==> !a.spec.requiresVerification)
  }

  lemma {:induction false} RecordsBacked(steps: seq<Step>)
    requires forall j :: 0 <= j < |steps| ==> Backed(steps[j])
    ensures forall a :: a in Records(steps) ==> BackedRecord(a)
  {
    if steps != [] {
      RecordsBacked(steps[1..]);
    }
  }

  lemma {:induction false} CompletedIsDone(actions: seq<ActionRecord>)
    requires forall a :: a in actions ==> BackedRecord(a)
    ensures forall a :: a in Completed(actions) ==> DoneRecord(a) && BackedRecord(a)
  {
    if actions != [] {
      CompletedIsDone(actions[1..]);
    }
  }

  lemma RunBacked(plan: Sequence, world: World, tick: nat)
    ensures var out := Execute(plan, NoEvaluator, world, tick);
            out.Returned? ==> forall a :: a in Records(out.result.steps) ==> BackedRecord(a)
  {
    ExecutionIsTruthful(plan, NoEvaluator, world, tick);
    var out := Execute(plan, NoEvaluator, world, tick);
    if out.Returned? {
      RecordsBacked(out.result.steps);
    }
  }

  lemma {:induction false} LoopBacked(s: TaskState, world: World)
    requires s.replans <= MaxReplans
    requires forall a :: a in s.actions ==> BackedRecord(a)
    ensures forall a :: a in Loop(s, world).state.actions ==> BackedRecord(a)
    decreases MaxReplans - s.replans
  {
    RunBacked(s.plan, world, s.tick);
    var out := Execute(s.plan, NoEvaluator, world, s.tick);
    if out.Returned? {
      ReactShape(s, out.result, world);
      var reaction := React(s, out.result, world);
      if reaction.Rerun? {
        LoopBacked(reaction.state, world);
      }
    }
  }

  lemma CompletedAreBacked(actions: seq<ActionRecord>, steps: seq<Step>)
    requires CompletedPieces(actions) == Pieces(steps)
    requires forall a :: a in Completed(actions) ==> DoneRecord(a) && BackedRecord(a)
    ensures var done := Completed(actions);
            && |done| == |Pieces(steps)|
            && forall j :: 0 <= j < |done| ==>
                 && Pieces(steps)[j] == Piece(Root(done[j].id), done[j].spec) && DoneRecord(done[j])
                    && BackedRecord(done[j])
  {
    var done := Completed(actions);
    assert PiecesOf(done) == Pieces(steps);
    assert forall j :: 0 <= j < |done| ==> done[j] in done;
  }

  /** A task that succeeds, directly or after replans, has for every original step, in order,
      one completed log entry; and where the step requires verification the entry's verdict is
      an authoritative TRUE. */
  lemma TaskSuccessIsTruthful(plan: Sequence, world: World, tick: nat)
    requires plan.stopOnFailure
    ensures var run := RunTask(plan, world, tick);
            run.end == TaskSucceeded ==>
              var done := Completed(run.state.actions);
              var pieces := Pieces(plan.steps);
              && |done| == |pieces|
              && forall j :: 0 <= j < |done| ==>
                   && pieces[j] == Piece(Root(done[j].id), done[j].spec)
                   && DoneRecord(done[j])
                   && (done[j].spec.requiresVerification ==>
                      done[j].status == VerifiedSuccess && SaysTrue(done[j].verdict))
  {
    ReplanningIsLossless(plan, world, tick);
    RunTaskIsLoop(plan, world, tick);
    LoopBacked(Begin(plan, tick), world);
    var run := RunTask(plan, world, tick);
    CompletedIsDone(run.state.actions);
    if run.end == TaskSucceeded {
      CompletedAreBacked(run.state.actions, plan.steps);
    }
  }

  // ---- compiled plans

  lemma {:induction false} PlannedPieces(steps: seq<Step>)
    requires forall j :: 0 <= j < |steps| ==> steps[j].id.Planned?
    ensures |Pieces(steps)| == |steps|
    ensures forall j :: 0 <= j < |steps| ==> Pieces(steps)[j] == Piece(steps[j].id, steps[j].spec)
  {
    if steps != [] {
      PlannedPieces(steps[1..]);
    }
  }

  /** The entries of a log tell, intent by intent and in order, that each was carried
      out, with TRUE for exactly the promised check where one was promised. */
  ghost predicate KeptPromises(intents: seq<Compiler.Intent>, log: seq<ActionRecord>) {
    var done := Completed(log);
    && |done| == |intents|
    && forall k :: 0 <= k < |intents| ==>
         && Root(done[k].id) == Planned(k) && done[k].spec.action == intents[k].action
         && (Compiler.MustVerify(intents, k) ==>
            SaysTrue(done[k].verdict) && done[k].spec.check == Compiler.PromisedCheck(intents, k))
  }

  lemma BackedLogKeepsPromises(intents: seq<Compiler.Intent>, log: seq<ActionRecord>)
    requires CompletedPieces(log) == Pieces(Compiler.CompilePlan(intents).steps)
    requires forall a :: a in log ==> BackedRecord(a)
    ensures KeptPromises(intents, log)
  {
    var plan := Compiler.CompilePlan(intents);
    CompletedIsDone(log);
    CompletedAreBacked(log, plan.steps);
    forall k | 0 <= k < |intents|
      ensures plan.steps[k].id == Planned(k) && plan.steps[k].spec.action == intents[k].action
      ensures Compiler.MustVerify(intents, k) ==>
                plan.steps[k].spec.requiresVerification
                  && plan.steps[k].spec.check == Compiler.PromisedCheck(intents, k)
    {
      Compiler.CompiledChecks(intents, k);
    }
    PlannedPieces(plan.steps);
  }

  /** Compile, then execute: when a compiled plan's task succeeds, each intent has its own
      completed entry, in order; and every intent the plan promises to verify carries TRUE for
      exactly the promised check, a paste being checked against the payload of the latest copy
      before it. */
  lemma CompiledSuccessIsTruthful(intents: seq<Compiler.Intent>, world: World, tick: nat)
    ensures var run := RunTask(Compiler.CompilePlan(intents), world, tick);
            run.end == TaskSucceeded ==> KeptPromises(intents, run.state.actions)
  {
    var plan := Compiler.CompilePlan(intents);
    ReplanningIsLossless(plan, world, tick);
    RunTaskIsLoop(plan, world, tick);
    LoopBacked(Begin(plan, tick), world);
    if RunTask(plan, world, tick).end == TaskSucceeded {
      BackedLogKeepsPromises(intents, RunTask(plan, world, tick).state.actions);
    }
  }

  // ---- work

  lemma {:induction false} ForwardsConcat(a: seq<Effect>, b: seq<Effect>)
    ensures Forwards(a + b) == Forwards(a) + Forwards(b)
  {
    if b == [] {
      assert a + b == a;
    } else {
      var front := b[..|b| - 1];
      assert (a + b)[..|a + b| - 1] == a + front;
      ForwardsConcat(a, front);
    }
  }

  /** What the loop may have spent by its i-th replan on a plan of n steps with l attempts each. */
  ghost predicate Budget(s: TaskState, n: nat, l: nat) {
    && s.replans <= MaxReplans
    && s.runs == s.replans
    && |s.plan.steps| <= n + s.replans
    && AttemptLimit(s.plan.maxRetries) == (if s.replans == 0 then l else 2)
    && Forwards(s.effects) <= (if s.replans == 0 then 0 else if s.replans == 1 then l * n else l * n + 2 * (n + 1))
  }

  lemma MulMono(l: nat, m: nat, n: nat)
    requires m <= n
    ensures l * m <= l * n
  {
    assert l * n == l * m + l * (n - m);
  }

  lemma RunCost(s: TaskState, world: World, n: nat, l: nat)
    requires Budget(s, n, l)
    ensures var out := Execute(s.plan, NoEvaluator, world, s.tick);
            var effects := if out.Returned? then out.result.effects else out.effects;
            Forwards(s.effects + effects) <=
              (if s.replans == 0 then l * n else if s.replans == 1 then l * n + 2 * (n + 1) else l * n + 4 * n + 6)
  {
    ExecutionIsLicensed(s.plan, NoEvaluator, world, s.tick);
    var out := Execute(s.plan, NoEvaluator, world, s.tick);
    var effects := if out.Returned? then out.result.effects else out.effects;
    ForwardsConcat(s.effects, effects);
    if s.replans == 0 {
      MulMono(l, |s.plan.steps|, n);
    }
  }

  lemma RerunBudget(s: TaskState, r: Progress, world: World, n: nat, l: nat)
    requires Budget(s, n, l) && Execute(s.plan, NoEvaluator, world, s.tick) == Returned(r)
    requires React(s, r, world).Rerun?
    requires Forwards(s.effects + r.effects) <= (
               if s.replans == 0 then l * n else if s.replans == 1 then l * n + 2 * (n + 1) else l * n + 4 * n + 6)
    ensures Budget(React(s, r, world).state, n, l)
  {
    ExecutionIsTruthful(s.plan, NoEvaluator, world, s.tick);
    ReactShape(s, r, world);
    ReplanKeepsPieces(Logged(s, r).plan, r.failedIndex.value);
  }

  lemma {:induction false} LoopBudget(s: TaskState, world: World, n: nat, l: nat)
    requires Budget(s, n, l)
    ensures var run := Loop(s, world);
            run.state.runs <= 3 && Forwards(run.state.effects) <= l * n + 4 * n + 6
    decreases MaxReplans - s.replans
  {
    RunCost(s, world, n, l);
    assert l * n >= 0;
    var out := Execute(s.plan, NoEvaluator, world, s.tick);
    if out.Returned? {
      var r := out.result;
      ReactShape(s, r, world);
      LoopFollows(s, r, world);
      if React(s, r, world).Rerun? {
        RerunBudget(s, r, world, n, l);
        LoopBudget(React(s, r, world).state, world, n, l);
      }
    }
  }

  /** A composite task of n steps makes at most three sequence runs and at most
      (max(1, r + 1) + 4) * n + 6 forward actuations, r being its retry limit. */
  lemma WorkIsBounded(plan: Sequence, world: World, tick: nat)
    ensures var run := RunTask(plan, world, tick);
            && run.state.runs <= 3
            && Forwards(run.state.effects)
               <= ((if plan.maxRetries + 1 > 1 then plan.maxRetries + 1 else 1) + 4) * |plan.steps| + 6
  {
    var n, l := |plan.steps|, AttemptLimit(plan.maxRetries);
    RunTaskIsLoop(plan, world, tick);
    LoopBudget(Begin(plan, tick), world, n, l);
    assert (l + 4) * n == l * n + 4 * n;
  }
}
