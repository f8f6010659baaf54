/** The checked projection of a task graph to the legacy chain of stages. */
module Projection {
  import opened Records
  import opened Dependency
  import opened Kahn
  import opened Ordering
  import opened Rounds
  import opened Structure
  import opened EdgeTables
  import opened Planner
  import opened Contract

  /** The id that ends a legacy chain. */
  const COMPLETE := Id("complete")

  datatype Stage = Stage(
    stageId: Id,
    position: nat,
    stageType: string,
    executor: string,
    purpose: string,
    maxRepairs: nat,
    onSuccess: Id,
    onFailure: string)

  datatype LegacyPlan = LegacyPlan(topologicalOrder: seq<Id>, stageChain: seq<Stage>)

  datatype Refusal = InvalidContract(issues: seq<Issue>) | PlanningFailed(issues: seq<Issue>)

  function InferStageType(task: Task): string {
    if task.owner in {Human, HumanTwinAgent} then "Approval"
    else if task.requiredEvidence != [] || task.gapIds != [] then "Retrieval"
    else "Generic"
  }

  function InferExecutor(task: Task): string {
    if task.owner in {Human, HumanTwinAgent} then "approval-executor"
    else if task.requiredEvidence != [] || task.gapIds != [] then "retrieval-aware-executor"
    else "generic-executor"
  }

  /** The tasks in the given order; ids of no task are skipped. */
  function OrderedTasks(tasks: seq<Task>, order: seq<Id>): seq<Task> {
    if order == [] then []
    else
      match FirstById(tasks, TaskId, order[0])
      case Some(task) => [task] + OrderedTasks(tasks, order[1..])
      case None => OrderedTasks(tasks, order[1..])
  }

  function StageFromOrder(ordered: seq<Task>, i: nat): Stage
    requires i < |ordered|
  {
    var task := ordered[i];
    Stage(task.id, i, InferStageType(task), InferExecutor(task), task.title,
          if task.owner == WorkerAgent then 1 else 0,
          if i + 1 < |ordered| then ordered[i + 1].id else COMPLETE,
          "repair_or_fail")
  }

  function StageChain(ordered: seq<Task>): (chain: seq<Stage>)
    ensures |chain| == |ordered|
    ensures forall i :: 0 <= i < |ordered| ==> chain[i] == StageFromOrder(ordered, i)
  {
    seq(|ordered|, i requires 0 <= i < |ordered| => StageFromOrder(ordered, i))
  }

  function ProjectInOrder(graph: TaskGraph, order: seq<Id>): LegacyPlan {
    var ordered := OrderedTasks(graph.tasks, order);
    LegacyPlan(
      seq(|ordered|, i requires 0 <= i < |ordered| => ordered[i].id),
      StageChain(ordered))
  }

  /** `legacy` is the projection of `graph` along the order of its plan. */
  ghost predicate IsProjection(graph: TaskGraph, legacy: LegacyPlan) {
    exists plan :: IsPlan(DepsOf(graph.tasks), plan) && legacy == ProjectInOrder(graph, plan.topologicalOrder)
  }

  /** A graph is projected exactly when it conforms. A conforming graph always plans, so the planner's
      refusal is never seen. */
  method CheckedProjection(graph: TaskGraph) returns (r: Result<LegacyPlan, Refusal>)
    ensures r.Ok? <==> Conformant(graph)
    ensures r.Ok? ==> IsProjection(graph, r.value)
    ensures r.Err? ==> r.error.InvalidContract? && r.error.issues != []
    ensures r.Err? ==> forall x :: x in r.error.issues ==> GraphFault(graph, x)
    ensures r.Err? ==> forall x :: GraphFault(graph, x) && !x.CycleFound? ==> x in r.error.issues
  {
    hide Plannable, IsPlan, StatusSound, TaskSound;
    var issues := ValidateTaskGraph(graph);
    if issues != [] {
      return Err(InvalidContract(issues));
    }
    var plan := PlanTaskGraph(graph.tasks);
    match plan {
      case Ok(p) =>
        r := Ok(ProjectInOrder(graph, p.topologicalOrder));
      case Err(refused) =>
        r := Err(PlanningFailed(refused));
    }
  }

  lemma {:induction false} OrderedTasksFound(tasks: seq<Task>, order: seq<Id>)
    requires Elements(order) <= TaskIds(tasks)
    ensures |OrderedTasks(tasks, order)| == |order|
    ensures forall i :: 0 <= i < |order| ==>
              OrderedTasks(tasks, order)[i] in tasks && OrderedTasks(tasks, order)[i].id == order[i]
  {
    if order != [] {
      ElementsNext(order, 0);
      assert Elements(order[1..]) <= Elements(order);
      OrderedTasksFound(tasks, order[1..]);
      var t :| t in tasks && t.id == order[0];
      var i :| 0 <= i < |tasks| && tasks[i] == t;
      assert TaskId(tasks[i]) == order[0];
      var found := FirstById(tasks, TaskId, order[0]);
      assert found.Some? && TaskId(found.value) == order[0];
    }
  }

  /** The chain has one stage per task, in an order that puts dependencies first; each stage names its
      successor, and the last one the end of the chain. */
  lemma ProjectionFollowsPlan(graph: TaskGraph, legacy: LegacyPlan)
    requires Conformant(graph) && IsProjection(graph, legacy)
    ensures Lists(legacy.topologicalOrder, DepsOf(graph.tasks).Keys)
    ensures Elements(legacy.topologicalOrder) == TaskIds(graph.tasks)
    ensures DependenciesFirst(DepsOf(graph.tasks), legacy.topologicalOrder)
    ensures ChainOf(legacy.stageChain, legacy.topologicalOrder)
    ensures |legacy.stageChain| == |graph.tasks| > 0
    ensures legacy.stageChain[|graph.tasks| - 1].onSuccess == Id("complete")
  {
    var d := DepsOf(graph.tasks);
    var plan :| IsPlan(d, plan) && legacy == ProjectInOrder(graph, plan.topologicalOrder);
    ProjectionOf(graph, plan);
    NoRepeatsCount(plan.topologicalOrder);
    DistinctDeps(graph.tasks);
  }

  lemma ProjectionOf(graph: TaskGraph, plan: GraphPlan)
    requires Structured(graph.tasks) && IsPlan(DepsOf(graph.tasks), plan)
    ensures Lists(plan.topologicalOrder, DepsOf(graph.tasks).Keys)
    ensures DependenciesFirst(DepsOf(graph.tasks), plan.topologicalOrder)
    ensures ProjectInOrder(graph, plan.topologicalOrder).topologicalOrder == plan.topologicalOrder
    ensures ChainOf(ProjectInOrder(graph, plan.topologicalOrder).stageChain, plan.topologicalOrder)
  {
    hide IsPlan, Structured, DependenciesFirst, DepsOf, TaskIds, ChainOf, ProjectInOrder;
    var order := plan.topologicalOrder;
    StructuredIsClosed(graph.tasks);
    PlanIsTopological(DepsOf(graph.tasks), plan);
    ProjectsOrder(graph, order);
  }

  lemma ProjectsOrder(graph: TaskGraph, order: seq<Id>)
    requires Elements(order) <= TaskIds(graph.tasks)
    ensures ProjectInOrder(graph, order).topologicalOrder == order
    ensures ChainOf(ProjectInOrder(graph, order).stageChain, order)
  {
    hide ChainOf, TaskIds, Elements;
    OrderedTasksFound(graph.tasks, order);
    assert ProjectInOrder(graph, order).topologicalOrder == order;
    StageChainFollows(OrderedTasks(graph.tasks, order), order);
  }

  lemma StageChainFollows(ordered: seq<Task>, ids: seq<Id>)
    requires |ordered| == |ids| && forall i :: 0 <= i < |ids| ==> ordered[i].id == ids[i]
    ensures ChainOf(StageChain(ordered), ids)
  {
  }

  // ----- one projection, whatever the input order -----

  /** A graph has one projection. */
  lemma ProjectionIsUnique(graph: TaskGraph, a: LegacyPlan, b: LegacyPlan)
    requires IsProjection(graph, a) && IsProjection(graph, b)
    ensures a == b
  {
    hide IsPlan;
    var d := DepsOf(graph.tasks);
    var p :| IsPlan(d, p) && a == ProjectInOrder(graph, p.topologicalOrder);
    var q :| IsPlan(d, q) && b == ProjectInOrder(graph, q.topologicalOrder);
    PlanIsUnique(d, p, q);
  }

  ghost predicate SameButDependencyOrder(t: Task, u: Task) {
    SameTaskUpToOrder(t, u) && u == t.(dependsOn := u.dependsOn)
  }

  /** The same tasks, but for the order of the list and of each dependency list. */
  ghost predicate Rearranged(ts: seq<Task>, us: seq<Task>, place: seq<nat>, back: seq<nat>) {
    SameUpToOrder(ts, us, place, back) && forall i :: 0 <= i < |ts| ==> SameButDependencyOrder(ts[i], us[place[i]])
  }

  lemma RearrangedBackwards(ts: seq<Task>, us: seq<Task>, place: seq<nat>, back: seq<nat>)
    requires Rearranged(ts, us, place, back)
    ensures Rearranged(us, ts, back, place)
  {
    SameBackwards(ts, us, place, back);
    forall j | 0 <= j < |us| ensures SameButDependencyOrder(us[j], ts[back[j]]) {
      assert SameButDependencyOrder(ts[back[j]], us[place[back[j]]]);
    }
  }

  lemma TaskOfSameId(ts: seq<Task>, us: seq<Task>, place: seq<nat>, back: seq<nat>, t: Task, u: Task)
    requires Rearranged(ts, us, place, back) && DistinctIds(us, TaskId)
    requires t in ts && u in us && t.id == u.id
    ensures SameButDependencyOrder(t, u)
  {
    var i :| 0 <= i < |ts| && ts[i] == t;
    assert SameButDependencyOrder(t, us[place[i]]);
    assert TaskId(us[place[i]]) == TaskId(u);
    OnlyWithId(us, TaskId, us[place[i]]);
    OnlyWithId(us, TaskId, u);
  }

  /** Rearranging the tasks or any dependency list changes neither whether the graph conforms nor its projection. */
  lemma ProjectionIgnoresInputOrder(graph: TaskGraph, us: seq<Task>, place: seq<nat>, back: seq<nat>)
    requires Rearranged(graph.tasks, us, place, back)
    ensures Conformant(graph) <==> Conformant(graph.(tasks := us))
    ensures Conformant(graph) ==>
              forall a, b :: IsProjection(graph, a) && IsProjection(graph.(tasks := us), b) ==> a == b
  {
    hide Conformant, IsProjection, Rearranged;
    RearrangedBackwards(graph.tasks, us, place, back);
    if Conformant(graph) { RearrangedConforms(graph, us, place, back); }
    if Conformant(graph.(tasks := us)) {
      RearrangedConforms(graph.(tasks := us), graph.tasks, back, place);
      assert graph.(tasks := us).(tasks := graph.tasks) == graph;
    }
    if Conformant(graph) {
      forall a, b | IsProjection(graph, a) && IsProjection(graph.(tasks := us), b) ensures a == b {
        RearrangedProjection(graph, us, place, back, a, b);
      }
    }
  }

  lemma RearrangedConforms(graph: TaskGraph, us: seq<Task>, place: seq<nat>, back: seq<nat>)
    requires Rearranged(graph.tasks, us, place, back) && Rearranged(us, graph.tasks, back, place)
    requires Conformant(graph)
    ensures Conformant(graph.(tasks := us))
  {
    hide IsPlan, StatusSound, TaskSound, Plannable, DepsOf, LastById;
    RearrangedPlannable(graph.tasks, us, place, back);
    forall u | u in us ensures TaskSound(u) && StatusSound(LastById(us, TaskId), u) {
      RearrangedTask(graph.tasks, us, place, back, u);
    }
  }

  lemma RearrangedPlannable(ts: seq<Task>, us: seq<Task>, place: seq<nat>, back: seq<nat>)
    requires Rearranged(ts, us, place, back) && Plannable(ts)
    ensures Plannable(us) && DistinctIds(ts, TaskId) && DistinctIds(us, TaskId)
  {
    var none := GraphPlan([], [], map[]);
    PlanIgnoresInputOrder(ts, us, place, back, none, none);
  }

  lemma RearrangedTask(ts: seq<Task>, us: seq<Task>, place: seq<nat>, back: seq<nat>, u: Task)
    requires Rearranged(ts, us, place, back) && Rearranged(us, ts, back, place)
    requires DistinctIds(ts, TaskId) && DistinctIds(us, TaskId) && u in us
    requires forall t :: t in ts ==> TaskSound(t) && StatusSound(LastById(ts, TaskId), t)
    ensures TaskSound(u) && StatusSound(LastById(us, TaskId), u)
  {
    hide Rearranged, NoRepeats, DistinctIds, LastById;
    var j :| 0 <= j < |us| && us[j] == u;
    var t := RearrangedFrom(ts, us, place, back, j);
    SameDependencies(t, u);
    assert forall x :: x in u.dependsOn <==> x in Elements(u.dependsOn);
    assert forall x :: x in t.dependsOn <==> x in Elements(t.dependsOn);
    forall x | x in LastById(us, TaskId)
      ensures x in LastById(ts, TaskId) && LastById(ts, TaskId)[x].status == LastById(us, TaskId)[x].status
    {
      SameStatus(ts, us, place, back, x);
    }
  }

  lemma RearrangedFrom(ts: seq<Task>, us: seq<Task>, place: seq<nat>, back: seq<nat>, j: nat) returns (t: Task)
    requires Rearranged(us, ts, back, place) && j < |us|
    ensures t in ts && SameButDependencyOrder(us[j], t)
  {
    t := ts[back[j]];
    assert SameButDependencyOrder(us[j], t);
  }

  lemma SameStatus(ts: seq<Task>, us: seq<Task>, place: seq<nat>, back: seq<nat>, x: Id)
    requires Rearranged(us, ts, back, place) && DistinctIds(ts, TaskId) && x in LastById(us, TaskId)
    ensures x in LastById(ts, TaskId) && LastById(ts, TaskId)[x].status == LastById(us, TaskId)[x].status
  {
    hide DistinctIds, Rearranged;
    LastByIdFound(us, TaskId, x);
    var j :| LastAt(us, TaskId, x, j) && us[j] == LastById(us, TaskId)[x];
    var t := RearrangedFrom(ts, us, place, back, j);
    OnlyWithId(ts, TaskId, t);
    assert TaskId(t) == x;
  }

  lemma RearrangedProjection(graph: TaskGraph, us: seq<Task>, place: seq<nat>, back: seq<nat>, a: LegacyPlan, b: LegacyPlan)
    requires Rearranged(graph.tasks, us, place, back) && Conformant(graph)
    requires IsProjection(graph, a) && IsProjection(graph.(tasks := us), b)
    ensures a == b
  {
    hide IsPlan, StatusSound, TaskSound, Rearranged, Plannable, DepsOf, ProjectInOrder, SameUpToOrder;
    var ts, other := graph.tasks, graph.(tasks := us);
    var p :| IsPlan(DepsOf(ts), p) && a == ProjectInOrder(graph, p.topologicalOrder);
    var q :| IsPlan(DepsOf(us), q) && b == ProjectInOrder(other, q.topologicalOrder);
    RearrangedPlannable(ts, us, place, back);
    assert SameUpToOrder(ts, us, place, back) by { RearrangedIsSame(ts, us, place, back); }
    PlanIgnoresInputOrder(ts, us, place, back, p, q);
    PlannedIds(ts, p);
    PlannedIds(us, q);
    SameStages(graph, us, place, back, p.topologicalOrder);
  }

  lemma RearrangedIsSame(ts: seq<Task>, us: seq<Task>, place: seq<nat>, back: seq<nat>)
    requires Rearranged(ts, us, place, back)
    ensures SameUpToOrder(ts, us, place, back)
  {
  }

  lemma PlannedIds(tasks: seq<Task>, plan: GraphPlan)
    requires Plannable(tasks) && IsPlan(DepsOf(tasks), plan)
    ensures Elements(plan.topologicalOrder) <= TaskIds(tasks)
  {
    hide IsPlan, DepsOf, Structured, DependenciesFirst;
    assert Structured(tasks);
    StructuredIsClosed(tasks);
    PlanIsTopological(DepsOf(tasks), plan);
  }

  lemma SameStages(graph: TaskGraph, us: seq<Task>, place: seq<nat>, back: seq<nat>, order: seq<Id>)
    requires Rearranged(graph.tasks, us, place, back) && DistinctIds(us, TaskId)
    requires Elements(order) <= TaskIds(graph.tasks) && Elements(order) <= TaskIds(us)
    ensures ProjectInOrder(graph, order) == ProjectInOrder(graph.(tasks := us), order)
  {
    hide Rearranged, DistinctIds, TaskIds, OrderedTasks, Elements;
    var ts := graph.tasks;
    OrderedTasksFound(ts, order);
    OrderedTasksFound(us, order);
    var a, b := OrderedTasks(ts, order), OrderedTasks(us, order);
    forall i | 0 <= i < |order| ensures SameButDependencyOrder(a[i], b[i]) {
      TaskOfSameId(ts, us, place, back, a[i], b[i]);
    }
    assert StageChain(a) == StageChain(b);
  }

  /** The stage is that of the task with its id: it keeps the title, is an approval exactly for a human owner,
      and retrieves exactly when a task of another owner needs evidence or has gaps. Only a worker's stage
      stores a repair. */
  ghost predicate DescribesTask(stage: Stage, task: Task) {
    && stage.stageId == task.id && stage.purpose == task.title && stage.onFailure == "repair_or_fail"
    && (stage.maxRepairs == 1 <==> task.owner == WorkerAgent) && stage.maxRepairs <= 1
    && (stage.stageType == "Approval" <==> task.owner == Human || task.owner == HumanTwinAgent)
    && (stage.stageType == "Retrieval" <==>
          stage.stageType != "Approval" && (task.requiredEvidence != [] || task.gapIds != []))
    && (stage.executor == "approval-executor" <==> stage.stageType == "Approval")
    && (stage.executor == "retrieval-aware-executor" <==> stage.stageType == "Retrieval")
    && stage.stageType in {"Approval", "Retrieval", "Generic"}
    && stage.executor in {"approval-executor", "retrieval-aware-executor", "generic-executor"}
  }

  lemma StagesDescribeTasks(graph: TaskGraph, legacy: LegacyPlan, i: nat)
    requires Conformant(graph) && IsProjection(graph, legacy)
    requires i < |legacy.stageChain|
    ensures legacy.stageChain[i].position == i
    ensures exists task :: task in graph.tasks && DescribesTask(legacy.stageChain[i], task)
  {
    hide Conformant, IsPlan, DepsOf, OrderedTasks, StageFromOrder, DescribesTask;
    var plan :| IsPlan(DepsOf(graph.tasks), plan) && legacy == ProjectInOrder(graph, plan.topologicalOrder);
    PlannedTasks(graph, plan);
    var ordered := OrderedTasks(graph.tasks, plan.topologicalOrder);
    StageDescribesTask(ordered, i);
    assert ordered[i] in ordered;
  }

  lemma StageDescribesTask(ordered: seq<Task>, i: nat)
    requires i < |ordered|
    ensures DescribesTask(StageFromOrder(ordered, i), ordered[i])
    ensures StageFromOrder(ordered, i).position == i
  {
  }

  lemma PlannedTasks(graph: TaskGraph, plan: GraphPlan)
    requires Conformant(graph) && IsPlan(DepsOf(graph.tasks), plan)
    ensures forall task :: task in OrderedTasks(graph.tasks, plan.topologicalOrder) ==> task in graph.tasks
  {
    hide IsPlan, DepsOf, TaskIds, TaskSound, StatusSound, Structured, OrderedTasks, DependenciesFirst, NoRepeats;
    StructuredIsClosed(graph.tasks);
    PlanIsTopological(DepsOf(graph.tasks), plan);
    OrderedTasksFound(graph.tasks, plan.topologicalOrder);
  }

  // ----- following the chain -----

  /** The stages carry these ids and each names the next one. */
  ghost predicate ChainOf(chain: seq<Stage>, ids: seq<Id>) {
    && |chain| == |ids|
    && forall i :: 0 <= i < |chain| ==>
         chain[i].stageId == ids[i] && chain[i].onSuccess == if i + 1 < |ids| then ids[i + 1] else COMPLETE
  }

  /** The stage ids met by starting at the first stage and going on to the stage named by `onSuccess` until
      that names the end. */
  ghost predicate Follows(chain: seq<Stage>, path: seq<Id>) {
    && path != [] && chain != [] && path[0] == chain[0].stageId
    && (forall k :: 0 < k < |path| ==> path[k] != COMPLETE && NextStage(chain, path[k - 1], path[k]))
    && NextStage(chain, path[|path| - 1], COMPLETE)
  }

  ghost predicate NextStage(chain: seq<Stage>, id: Id, next: Id) {
    exists i :: 0 <= i < |chain| && chain[i].stageId == id && chain[i].onSuccess == next
  }

  /** Where the walk ends: before the first stage after the start that has the id of the end marker. */
  function EndOfWalk(ids: seq<Id>, k: nat): (n: nat)
    requires 0 < k <= |ids|
    ensures k <= n <= |ids|
    ensures forall i :: k <= i < n ==> ids[i] != COMPLETE
    ensures n < |ids| ==> ids[n] == COMPLETE
    decreases |ids| - k
  {
    if k == |ids| || ids[k] == COMPLETE then k else EndOfWalk(ids, k + 1)
  }

  lemma NextInChain(chain: seq<Stage>, ids: seq<Id>, i: nat, next: Id)
    requires ChainOf(chain, ids) && NoRepeats(ids) && i < |ids|
    ensures NextStage(chain, ids[i], next) <==> next == if i + 1 < |ids| then ids[i + 1] else COMPLETE
  {
    assert chain[i].stageId == ids[i];
    if NextStage(chain, ids[i], next) {
      var j :| 0 <= j < |chain| && chain[j].stageId == ids[i] && chain[j].onSuccess == next;
      assert ids[j] == ids[i];
    }
  }

  /** The walk along `onSuccess` is the listed order, cut before a later task called "complete". */
  lemma WalkAlongChain(chain: seq<Stage>, ids: seq<Id>, path: seq<Id>)
    requires ChainOf(chain, ids) && NoRepeats(ids) && ids != []
    ensures Follows(chain, path) <==> path == ids[..EndOfWalk(ids, 1)]
  {
    if path == ids[..EndOfWalk(ids, 1)] { OrderIsFollowed(chain, ids); }
    if Follows(chain, path) { FollowedToEnd(chain, ids, path); }
  }

  lemma OrderIsFollowed(chain: seq<Stage>, ids: seq<Id>)
    requires ChainOf(chain, ids) && NoRepeats(ids) && ids != []
    ensures Follows(chain, ids[..EndOfWalk(ids, 1)])
  {
    hide NextStage;
    var n := EndOfWalk(ids, 1);
    forall k | 0 < k < n ensures ids[k] != COMPLETE && NextStage(chain, ids[k - 1], ids[k]) {
      NextInChain(chain, ids, k - 1, ids[k]);
    }
    NextInChain(chain, ids, n - 1, COMPLETE);
  }

  lemma FollowedToEnd(chain: seq<Stage>, ids: seq<Id>, path: seq<Id>)
    requires ChainOf(chain, ids) && NoRepeats(ids) && ids != []
    requires Follows(chain, path)
    ensures path == ids[..EndOfWalk(ids, 1)]
  {
    hide NextStage;
    FollowedPrefix(chain, ids, path, |path| - 1);
    NextInChain(chain, ids, |path| - 1, COMPLETE);
    assert path == ids[..|path|];
  }

  lemma {:induction false} FollowedPrefix(chain: seq<Stage>, ids: seq<Id>, path: seq<Id>, k: nat)
    requires ChainOf(chain, ids) && NoRepeats(ids) && ids != []
    requires Follows(chain, path) && k < |path|
    ensures k < |ids| && path[..k + 1] == ids[..k + 1]
    ensures forall i :: 1 <= i <= k ==> ids[i] != COMPLETE
  {
    if k > 0 {
      FollowedPrefix(chain, ids, path, k - 1);
      assert path[k] != COMPLETE && NextStage(chain, path[k - 1], path[k]);
      assert path[k - 1] == path[..k][k - 1] == ids[k - 1];
      NextInChain(chain, ids, k - 1, path[k]);
      assert path[..k + 1] == path[..k] + [path[k]];
      assert ids[..k + 1] == ids[..k] + [ids[k]];
    }
  }

  /** No task of the graph is called "complete", or that task needs nothing and comes before all others that need
      nothing: then it is the first of the planned order. */
  ghost predicate CompleteIsHarmless(d: Deps) {
    COMPLETE in d ==>
      d[COMPLETE].needs == {} && forall t :: t in d && d[t].needs == {} && t != COMPLETE ==> Below(COMPLETE, t)
  }

  lemma {:induction false} FlattenStarts(d: Deps, layers: seq<seq<Id>>)
    requires layers != [] && LayersOf(d, layers)
    ensures Flatten(layers) != [] && Flatten(layers)[0] == layers[0][0]
  {
    assert IsLayer(d, 0, layers[0]);
    if |layers| > 1 {
      FlattenStarts(d, layers[..|layers| - 1]);
    }
  }

  /** The planned order starts with the least task that needs nothing. */
  lemma PlanStartsWithLeast(d: Deps, plan: GraphPlan)
    requires IsPlan(d, plan) && d != map[]
    ensures plan.topologicalOrder != []
    ensures var first := plan.topologicalOrder[0];
            && first in d && d[first].needs == {}
            && forall t :: t in d && d[t].needs == {} && t != first ==> Below(first, t)
  {
    var layers := plan.parallelLayers;
    assert layers != [];
    FlattenStarts(d, layers);
    var layer := layers[0];
    assert IsLayer(d, 0, layer);
    assert layer[0] in Elements(layer);
    LayerIsOneAfterDependencies(d, 0, layer[0]);
    forall t | t in d && d[t].needs == {} && t != layer[0] ensures Below(layer[0], t) {
      LayerIsOneAfterDependencies(d, 0, t);
      assert t in Elements(layer);
      var i :| 0 <= i < |layer| && layer[i] == t;
    }
  }

  lemma BehindFirst(order: seq<Id>, x: Id)
    requires NoRepeats(order) && order != []
    ensures x in order[1..] <==> x in Elements(order) && x != order[0]
  {
    assert order == [order[0]] + order[1..];
    forall k | 0 <= k < |order[1..]| ensures order[1..][k] != order[0] {
      assert order[k + 1] != order[0];
    }
  }

  lemma LeastIsComplete(d: Deps, first: Id)
    requires first in d && d[first].needs == {}
    requires forall t :: t in d && d[t].needs == {} && t != first ==> Below(first, t)
    ensures CompleteIsHarmless(d) <==> (COMPLETE in d ==> first == COMPLETE)
  {
    hide Below;
    BelowTotal(COMPLETE, first);
  }

  /** The id that ends a chain can only stand at the front of the planned order when it is harmless. */
  lemma CompleteOnlyInFront(d: Deps, plan: GraphPlan)
    requires Closed(d) && IsPlan(d, plan) && d != map[]
    ensures COMPLETE !in plan.topologicalOrder[1..] <==> CompleteIsHarmless(d)
  {
    hide IsPlan, Closed, DependenciesFirst, CompleteIsHarmless, NoRepeats, Elements, Below;
    PlanIsTopological(d, plan);
    PlanStartsWithLeast(d, plan);
    LeastIsComplete(d, plan.topologicalOrder[0]);
    BehindFirst(plan.topologicalOrder, COMPLETE);
  }

  /** Following `onSuccess` through a projected graph visits every task exactly once, in planned order, if and only
      if no task is called "complete", or that task needs nothing and comes before all others that need nothing. */
  lemma ProjectionVisitsEveryTask(graph: TaskGraph, legacy: LegacyPlan, path: seq<Id>)
    requires Conformant(graph) && IsProjection(graph, legacy)
    requires Follows(legacy.stageChain, path)
    ensures path <= legacy.topologicalOrder
    ensures path == legacy.topologicalOrder <==> CompleteIsHarmless(DepsOf(graph.tasks))
  {
    hide Conformant, IsProjection, Follows, ChainOf, CompleteIsHarmless, DependenciesFirst, DepsOf, Elements, EndOfWalk;
    var order := legacy.topologicalOrder;
    ProjectionFollowsPlan(graph, legacy);
    WalkAlongChain(legacy.stageChain, order, path);
    CutWhereComplete(order);
    CompleteInProjection(graph, legacy);
  }

  lemma CompleteInProjection(graph: TaskGraph, legacy: LegacyPlan)
    requires Conformant(graph) && IsProjection(graph, legacy)
    ensures legacy.topologicalOrder != []
    ensures COMPLETE !in legacy.topologicalOrder[1..] <==> CompleteIsHarmless(DepsOf(graph.tasks))
  {
    hide Conformant, IsPlan, CompleteIsHarmless, DependenciesFirst, DepsOf, ProjectInOrder, Structured, ChainOf;
    var plan :| IsPlan(DepsOf(graph.tasks), plan) && legacy == ProjectInOrder(graph, plan.topologicalOrder);
    ConformantIsClosed(graph);
    ProjectionOf(graph, plan);
    PlanStartsWithLeast(DepsOf(graph.tasks), plan);
    CompleteOnlyInFront(DepsOf(graph.tasks), plan);
  }

  lemma ConformantIsClosed(graph: TaskGraph)
    requires Conformant(graph)
    ensures Structured(graph.tasks) && Closed(DepsOf(graph.tasks)) && DepsOf(graph.tasks) != map[]
  {
    StructuredIsClosed(graph.tasks);
    assert TaskId(graph.tasks[0]) in TaskIds(graph.tasks);
  }

  lemma CutWhereComplete(order: seq<Id>)
    requires order != []
    ensures EndOfWalk(order, 1) == |order| <==> COMPLETE !in order[1..]
    ensures order[..EndOfWalk(order, 1)] == order <==> EndOfWalk(order, 1) == |order|
  {
    var n := EndOfWalk(order, 1);
    assert n < |order| ==> order[1..][n - 1] == COMPLETE;
    if n == |order| {
      forall k | 0 <= k < |order[1..]| ensures order[1..][k] != COMPLETE {
        assert order[k + 1] != COMPLETE;
      }
    }
  }

  /** A conforming graph whose second task is called "complete": the walk stops after the first task. */
  lemma TaskCalledCompleteCutsWalk() returns (graph: TaskGraph)
    ensures Conformant(graph) && |graph.tasks| == 2
    ensures forall legacy, path :: IsProjection(graph, legacy) && Follows(legacy.stageChain, path)
                                   ==> path == [graph.tasks[0].id]
  {
    hide Conformant, IsProjection, Follows;
    var first := Task(Id("draft"), "Draft", Accepted, PmAgent, [], [], [], [Id("note")], [], true);
    var last := Task(COMPLETE, "Complete", Ready, PmAgent, [first.id], [], [], [], [], true);
    graph := TaskGraph(Id("graph"), 1, None, [first, last], true);
    assert first.id != last.id by { assert |first.id.text| != |last.id.text|; }
    TwoTasks(first, last);
    forall legacy, path | IsProjection(graph, legacy) && Follows(legacy.stageChain, path)
      ensures path == [first.id]
    {
      CutAfterFirst(graph, first, last, legacy, path);
    }
  }

  lemma CutAfterFirst(graph: TaskGraph, first: Task, last: Task, legacy: LegacyPlan, path: seq<Id>)
    requires Conformant(graph) && DepsOf(graph.tasks).Keys == {first.id, last.id}
    requires DepsOf(graph.tasks)[last.id].needs == {first.id} && first.id != last.id == COMPLETE
    requires IsProjection(graph, legacy) && Follows(legacy.stageChain, path)
    ensures path == [first.id]
  {
    hide Conformant, IsProjection, Follows, DepsOf, Elements;
    ProjectionFollowsPlan(graph, legacy);
    DependencyComesFirst(DepsOf(graph.tasks), legacy.topologicalOrder, first.id, last.id);
    WalkAlongChain(legacy.stageChain, legacy.topologicalOrder, path);
  }

  lemma DependencyComesFirst(d: Deps, order: seq<Id>, first: Id, last: Id)
    requires d.Keys == {first, last} && d[last].needs == {first} && first != last
    requires Lists(order, d.Keys) && DependenciesFirst(d, order)
    ensures order == [first, last]
  {
    NoRepeatsCount(order);
    assert order[0] in Elements(order) && order[1] in Elements(order);
    assert order[0] in d && forall x :: x in d[order[0]].needs && x in d ==> x in order[..0];
  }

  lemma TwoTasks(first: Task, last: Task)
    requires TaskSound(first) && TaskSound(last) && first.id != last.id
    requires first.dependsOn == [] && last.dependsOn == [first.id]
    requires first.status == Accepted && last.status == Ready
    ensures Conformant(TaskGraph(Id("graph"), 1, None, [first, last], true))
    ensures DepsOf([first, last]).Keys == {first.id, last.id}
    ensures DepsOf([first, last])[last.id].needs == {first.id}
  {
    var tasks := [first, last];
    var d, byId := DepsOf(tasks), LastById(tasks, TaskId);
    TwoTasksStructured(first, last);
    assert first in tasks && last in tasks;
    assert DependenciesFirst(d, [first.id, last.id]) by { assert [first.id, last.id][..1] == [first.id]; }
    OrderedIsAcyclic(d, [first.id, last.id]);
    OnlyWithId(tasks, TaskId, first);
    assert TaskId(first) == first.id;
  }

  lemma TwoTasksStructured(first: Task, last: Task)
    requires first.id != last.id && first.dependsOn == [] && last.dependsOn == [first.id]
    ensures Structured([first, last])
    ensures DepsOf([first, last]).Keys == {first.id, last.id}
    ensures DepsOf([first, last])[first.id].needs == {}
    ensures DepsOf([first, last])[last.id].needs == {first.id}
  {
    var tasks := [first, last];
    assert first in tasks && last in tasks;
    assert TaskIds(tasks) == {first.id, last.id};
    DistinctDeps(tasks);
  }
}
