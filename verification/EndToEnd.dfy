/** From a validated task graph to the executor: no task runs before everything it depends on. */
module EndToEnd {
  import opened Records
  import opened Dependency
  import opened Structure
  import opened Planner
  import opened Contract
  import opened Projection
  import opened Executor

  /** The projected chain as the executor meets it: all stages pending. */
  function Deployed(legacy: LegacyPlan): (stages: seq<ExecStage>)
    ensures |stages| == |legacy.stageChain|
    ensures forall i :: 0 <= i < |stages| ==>
              stages[i].stageId == legacy.stageChain[i].stageId && stages[i].status == "pending"
  {
    seq(|legacy.stageChain|, i requires 0 <= i < |legacy.stageChain| =>
      var stage := legacy.stageChain[i];
      ExecStage(stage.stageId, "pending", Some(stage.maxRepairs as real), stage.onFailure))
  }

  lemma {:induction false} AllRunnable(stages: seq<ExecStage>)
    requires forall i :: 0 <= i < |stages| ==> stages[i].status == "pending"
    ensures |RunnableStages(stages)| == |stages|
    ensures forall i :: 0 <= i < |stages| ==> RunnableStages(stages)[i] == i
  {
    if stages != [] {
      AllRunnable(stages[..|stages| - 1]);
    }
  }

  /** Every projected stage is granted exactly one repair: the projection stores 0 or 1, and a stored 0 of a
      stage that is to be repaired or to fail counts as 1. */
  lemma EveryProjectedStageGetsOneRepair(graph: TaskGraph, legacy: LegacyPlan, i: nat)
    requires IsProjection(graph, legacy) && i < |legacy.stageChain|
    ensures RepairLimit(MaxRepairs(Deployed(legacy)[i])) == 1
  {
    var plan :| IsPlan(DepsOf(graph.tasks), plan) && legacy == ProjectInOrder(graph, plan.topologicalOrder);
    var stage := legacy.stageChain[i];
    assert stage == StageFromOrder(OrderedTasks(graph.tasks, plan.topologicalOrder), i);
    assert Deployed(legacy)[i] == ExecStage(stage.stageId, "pending", Some(stage.maxRepairs as real), "repair_or_fail");
    assert MaxRepairs(Deployed(legacy)[i]) == 1.0;
  }

  /** Task `id` ran as entry `m` of the log, and its report was acknowledged with a status that lets the
      chain go on. */
  ghost predicate PassedAt(stages: seq<ExecStage>, log: seq<StageRun>, m: nat, id: Id) {
    m < |log| && log[m].index < |stages| && stages[log[m].index].stageId == id && Passed(log[m])
  }

  function Last(p: seq<Id>): Id
    requires p != []
  {
    p[|p| - 1]
  }

  /** Entry `m` of the log of a chain of pending stages is about stage `m`, and passed unless it is the last. */
  lemma LogFollowsStages(stages: seq<ExecStage>, env: Env, log: seq<StageRun>, attempted: bool)
    requires IsRun(stages, env, log, attempted)
    requires forall i :: 0 <= i < |stages| ==> stages[i].status == "pending"
    ensures |log| <= |stages|
    ensures forall m :: 0 <= m < |log| ==> log[m].index == m
    ensures forall m :: 0 <= m < |log| - 1 ==> Passed(log[m])
    ensures stages != [] ==> (attempted <==> |log| == |stages| && Passed(log[|log| - 1]))
  {
    hide RanAs;
    AllRunnable(stages);
    forall m | 0 <= m < |log| ensures log[m].index == m {
      assert log[m].index == RunnableStages(stages)[m];
    }
    if stages != [] && |log| == |stages| {
      assert log[|log| - 1] in log;
      if Passed(log[|log| - 1]) {
        forall run | run in log ensures Passed(run) {
          var k :| 0 <= k < |log| && log[k] == run;
        }
      }
    }
  }

  lemma DependenciesPassed(graph: TaskGraph, legacy: LegacyPlan, env: Env,
                           log: seq<StageRun>, attempted: bool, n: nat, p: seq<Id>)
    requires Conformant(graph) && IsProjection(graph, legacy)
    requires IsRun(Deployed(legacy), env, log, attempted)
    requires IsWalk(DepsOf(graph.tasks), p) && |p| >= 2
    requires n < |log| && n < |legacy.topologicalOrder| && p[0] == legacy.topologicalOrder[n]
    ensures exists m: nat :: m < n && PassedAt(Deployed(legacy), log, m, Last(p))
  {
    hide IsProjection, Conformant, IsRun;
    var stages := Deployed(legacy);
    ProjectionFollowsPlan(graph, legacy);
    LogFollowsStages(stages, env, log, attempted);
    var m := WalkDescends(DepsOf(graph.tasks), legacy.topologicalOrder, p, n);
    assert PassedAt(stages, log, m, Last(p));
  }

  /** The end-to-end guarantee. When the executor runs the projection of a conforming graph, whatever the
      executors and the workflow service do: whenever a task is executed, every task it needs, directly or
      through others, was executed earlier, and its report was acknowledged with a non-stopping status. */
  lemma NoTaskBeforeItsDependencies(graph: TaskGraph, legacy: LegacyPlan, env: Env, log: seq<StageRun>, attempted: bool)
    requires Conformant(graph) && IsProjection(graph, legacy)
    requires IsRun(Deployed(legacy), env, log, attempted)
    ensures forall n, id :: 0 <= n < |log| && log[n].index < |Deployed(legacy)|
                            && Needs(DepsOf(graph.tasks), Deployed(legacy)[log[n].index].stageId, id)
                            ==> exists m: nat :: m < n && PassedAt(Deployed(legacy), log, m, id)
  {
    hide Conformant;
    var stages := Deployed(legacy);
    var d := DepsOf(graph.tasks);
    ProjectionFollowsPlan(graph, legacy);
    LogFollowsStages(stages, env, log, attempted);
    forall n, id | 0 <= n < |log| && log[n].index < |stages| && Needs(d, stages[log[n].index].stageId, id)
      ensures exists m: nat :: m < n && PassedAt(stages, log, m, id)
    {
      var p :| |p| >= 2 && IsWalk(d, p) && p[0] == stages[n].stageId && p[|p| - 1] == id;
      DependenciesPassed(graph, legacy, env, log, attempted, n, p);
    }
  }

  ghost predicate HasPassed(stages: seq<ExecStage>, log: seq<StageRun>, id: Id) {
    exists m: nat :: PassedAt(stages, log, m, id)
  }

  lemma AllIdsPassed(stages: seq<ExecStage>, log: seq<StageRun>, order: seq<Id>)
    requires NoRepeats(order) && order != [] && |stages| == |order|
    requires forall i :: 0 <= i < |stages| ==> stages[i].stageId == order[i]
    requires |log| <= |stages| && forall m :: 0 <= m < |log| ==> log[m].index == m
    requires forall m :: 0 <= m < |log| - 1 ==> Passed(log[m])
    ensures |log| == |order| && Passed(log[|log| - 1]) <==> forall id :: id in order ==> HasPassed(stages, log, id)
  {
    hide Passed;
    if |log| == |order| && Passed(log[|log| - 1]) {
      forall id | id in order ensures HasPassed(stages, log, id) {
        var m: nat :| m < |order| && order[m] == id;
        assert PassedAt(stages, log, m, id);
      }
    }
    if forall id :: id in order ==> HasPassed(stages, log, id) {
      assert Last(order) in order && HasPassed(stages, log, Last(order));
      var m: nat :| PassedAt(stages, log, m, Last(order));
      assert order[m] == order[|order| - 1];
    }
  }

  lemma TasksAreOrdered(tasks: seq<Task>, order: seq<Id>)
    requires Elements(order) == TaskIds(tasks)
    ensures forall task :: task in tasks ==> task.id in order
    ensures forall id :: id in order ==> exists task :: task in tasks && task.id == id
  {
    forall id | id in order ensures exists task :: task in tasks && task.id == id {
      assert id in Elements(order);
    }
    forall task | task in tasks ensures task.id in order {
      assert task.id in Elements(order);
    }
  }

  /** Completion is attempted exactly when every task of the graph was executed and passed. */
  lemma CompletionMeansEveryTaskPassed(graph: TaskGraph, legacy: LegacyPlan, env: Env, log: seq<StageRun>, attempted: bool)
    requires Conformant(graph) && IsProjection(graph, legacy)
    requires IsRun(Deployed(legacy), env, log, attempted)
    ensures attempted <==> forall task :: task in graph.tasks ==> HasPassed(Deployed(legacy), log, task.id)
  {
    hide Conformant, IsProjection, IsRun, DepsOf, DependenciesFirst, HasPassed, ChainOf, NoRepeats, Passed, Elements;
    var stages := Deployed(legacy);
    var order := legacy.topologicalOrder;
    ProjectionFollowsPlan(graph, legacy);
    LogFollowsStages(stages, env, log, attempted);
    AllIdsPassed(stages, log, order);
    TasksAreOrdered(graph.tasks, order);
  }
}
