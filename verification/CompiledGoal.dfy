/** From a request's intents to GOAL_COMPLETED: what a freshly compiled goal has going for it. */
module CompiledGoal {
  import opened Domain
  import opened CompositeTaskFacts
  import opened CompositeTaskSafety
  import opened CompositeTaskTrace
  import opened Goals
  import opened GoalFacts
  import opened GoalAccounts
  import Compiler

  /** A task as compilation leaves it: nothing tried, its intents compiled into a sequence of its
      own or kept as they are. */
  predicate Fresh(t: Task, intents: seq<Compiler.Intent>) {
    && t.state == Planning && t.actions == []
    && (t.work == Composite(Compiler.CompilePlan(intents)) || t.work == Plain(|intents|))
  }

  lemma CompiledPlanOk(intents: seq<Compiler.Intent>)
    ensures var plan := Compiler.CompilePlan(intents);
            && PlanOk(plan) && Unfinished(plan.steps) && WellIdentified(plan.steps)
            && forall s :: s in plan.steps ==> !IsVerified(s)
  {
    var plan := Compiler.CompilePlan(intents);
    forall k | 0 <= k < |plan.steps|
      ensures plan.steps[k].id == Planned(k) && plan.steps[k].index == k && plan.steps[k].status == Pending
    {
      Compiler.CompiledShape(intents, k);
    }
    assert SplitAt(plan.steps, 0);
    PlannedPieces(plan.steps);
  }

  /** A freshly compiled goal meets everything the theorems about goal runs ask of one. */
  lemma CompiledGoalIsReady(m: Memory, intents: seq<seq<Compiler.Intent>>)
    requires |m.tasks| == |intents| && m.current == 0
    requires forall j :: 0 <= j < |intents| ==> Fresh(m.tasks[j], intents[j])
    ensures MemoryOk(m)
    ensures forall j :: 0 <= j < |m.tasks| ==> Untried(m.tasks[j]) && WellIdentified(StepsOf(m.tasks[j]))
  {
    forall j | 0 <= j < |m.tasks|
      ensures TaskOk(m.tasks[j]) && Untried(m.tasks[j]) && WellIdentified(StepsOf(m.tasks[j]))
    {
      CompiledPlanOk(intents[j]);
      assert Pieces([]) == [];
    }
    assert Frontier(m.tasks, m.completedIds, 0);
  }

  /** End to end: a goal reported complete has carried out every intent of every compiled task it
      still had to do, in order, and holds TRUE for each check it promised. */
  lemma CompletedGoalKeepsPromises(s: RunState, world: World, j: nat, intents: seq<Compiler.Intent>)
    requires MemoryOk(s.memory) && s.emitted == [] && s.effects == []
    requires j < |s.memory.tasks| && s.memory.tasks[j].state != TaskCompleted
    requires s.memory.tasks[j].work == Composite(Compiler.CompilePlan(intents))
    ensures var t := Goals.Run(s, world);
            && |t.emitted| > 0 && |t.memory.tasks| == |s.memory.tasks|
            && (t.emitted[|t.emitted| - 1].event == GoalCompletedEvent ==>
                  exists log :: t.memory.tasks[j].actions == s.memory.tasks[j].actions + log
                    && KeptPromises(intents, log))
  {
    CompletedGoalIsTruthful(s, world);
    var t := Goals.Run(s, world);
    if t.emitted[|t.emitted| - 1].event == GoalCompletedEvent {
      var log :| FullyDone(s.memory.tasks[j], t.memory.tasks[j], log);
      BackedLogKeepsPromises(intents, log);
    }
  }
}
