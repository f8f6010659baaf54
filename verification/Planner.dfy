/** The planner: topological order, parallel layers and blockers of a task list. */
module Planner {
  import opened Records
  import opened Ordering
  import opened Dependency
  import opened Rounds
  import opened CycleSearch
  import opened Structure
  import opened EdgeTables
  import opened Kahn

  datatype GraphPlan = GraphPlan(
    topologicalOrder: seq<Id>,
    parallelLayers: seq<seq<Id>>,
    blockedBy: map<Id, seq<Id>>)

  /** `lists` holds the sorted dependencies of each task that has any. */
  ghost predicate SortedBlockers(d: Deps, lists: map<Id, seq<Id>>) {
    && lists.Keys == (set t | t in d && d[t].needs != {})
    && forall t :: t in lists ==> StrictlySorted(lists[t]) && Elements(lists[t]) == d[t].needs
  }

  /** What a plan of the dependency graph `d` is: its layers in order, all tasks covered. */
  ghost predicate IsPlan(d: Deps, plan: GraphPlan) {
    && LayersOf(d, plan.parallelLayers)
    && Done(d, |plan.parallelLayers|) == d.Keys
    && plan.topologicalOrder == Flatten(plan.parallelLayers)
    && SortedBlockers(d, plan.blockedBy)
  }

  ghost predicate Plannable(tasks: seq<Task>) {
    Structured(tasks) && Acyclic(DepsOf(tasks))
  }

  ghost predicate TrueRefusal(tasks: seq<Task>, x: Issue) {
    StructuralFault(tasks, x) || (x.CycleFound? && LoopTrail(DepsOf(tasks), x.trail))
  }

  method SortBlockers(ghost d: Deps, table: map<Id, seq<Id>>) returns (sorted: map<Id, seq<Id>>)
    requires BlockersOf(d, table)
    ensures SortedBlockers(d, sorted)
  {
    sorted := map x | x in table :: Sort(table[x]);
    forall x | x in table ensures StrictlySorted(sorted[x]) && Elements(sorted[x]) == d[x].needs {
      SortListed(table[x], d[x].needs);
    }
  }

  method SortDependents(ghost d: Deps, table: map<Id, seq<Id>>) returns (sorted: map<Id, seq<Id>>)
    requires DependentsOf(d, table)
    ensures DependentsOf(d, sorted)
  {
    sorted := map x | x in table :: Sort(table[x]);
    forall x | x in table ensures Lists(sorted[x], Dependents(d, x)) {
      SortListed(table[x], Dependents(d, x));
      StrictlySortedNoRepeats(sorted[x]);
    }
  }

  method SortedTaskIds(tasks: seq<Task>) returns (ids: seq<Id>)
    requires DistinctIds(tasks, TaskId)
    ensures StrictlySorted(ids) && Elements(ids) == DepsOf(tasks).Keys
  {
    var listed := seq(|tasks|, i requires 0 <= i < |tasks| => tasks[i].id);
    DistinctDeps(tasks);
    ghost var same := IdList(tasks);
    assert listed == same;
    SortListed(listed, TaskIds(tasks));
    ids := Sort(listed);
  }

  /** A task list plans exactly when its structure is sound and it has no cycle. The plan is then the
      layering of its dependency graph; otherwise each complaint is a true one. In particular neither of
      the two late guards, the unknown dependency in the edge loop and the final length check, ever fires. */
  method PlanTaskGraph(tasks: seq<Task>) returns (r: Result<GraphPlan, seq<Issue>>)
    ensures r.Ok? <==> Plannable(tasks)
    ensures r.Ok? ==> IsPlan(DepsOf(tasks), r.value)
    ensures r.Err? ==> r.error != [] && forall x :: x in r.error ==> TrueRefusal(tasks, x)
  {
    hide DepsOf, DistinctIds, StructuralFault, LoopTrail, IsPlan, Acyclic, LayersOf, Done, Layer, Closed;
    hide CountsOf, DependentsOf, BlockersOf, SortedBlockers, StrictlySorted, Elements, TaskStructured;
    var structural := DependencyStructuralIssues(tasks);
    if structural != [] {
      return Err(structural);
    }
    var cycles := DependencyCycleIssues(tasks);
    if cycles != [] {
      return Err(cycles);
    }
    ghost var d := DepsOf(tasks);
    DistinctDeps(tasks);
    StructuredIsClosed(tasks);
    var ids := SortedTaskIds(tasks);
    var unknown, indegree, dependents, blockedBy := BuildTables(tasks);
    match unknown {
      case Some(x) =>
        r := Err([x]);
      case None =>
        blockedBy := SortBlockers(d, blockedBy);
        dependents := SortDependents(d, dependents);
        var order, layers := Drain(d, ids, indegree, dependents);
        DrainsAllIffAcyclic(d, layers);
        PlanFromLayers(d, GraphPlan(order, layers, blockedBy));
        r := if |order| != |tasks| then Err([PlanTooShort]) else Ok(GraphPlan(order, layers, blockedBy));
    }
  }

  lemma StructuredIsClosed(tasks: seq<Task>)
    requires Structured(tasks)
    ensures Closed(DepsOf(tasks)) && DepsOf(tasks).Keys == TaskIds(tasks)
  {
    var d := DepsOf(tasks);
    DistinctDeps(tasks);
    forall id | id in d ensures d[id].needs <= d.Keys {
      var t :| t in tasks && t.id == id;
      assert TaskStructured(TaskIds(tasks), t);
    }
  }

  /** The layers drained by the Kahn loop list each task done exactly once. */
  lemma {:induction false} FlattenLists(d: Deps, layers: seq<seq<Id>>)
    requires LayersOf(d, layers)
    ensures Lists(Flatten(layers), Done(d, |layers|))
  {
    if layers != [] {
      var k := |layers| - 1;
      var rest, last := layers[..k], layers[k];
      assert LayersOf(d, rest);
      FlattenLists(d, rest);
      assert IsLayer(d, k, last);
      StrictlySortedNoRepeats(last);
      DoneGrows(d, k);
      ListsJoined(Flatten(rest), Done(d, k), last, Layer(d, k));
      assert Done(d, k + 1) == Done(d, k) + Layer(d, k);
    }
  }

  lemma ListsJoined(s: seq<Id>, a: set<Id>, t: seq<Id>, b: set<Id>)
    requires Lists(s, a) && Lists(t, b) && a !! b
    ensures Lists(s + t, a + b)
  {
    var both := s + t;
    forall i, j | 0 <= i < j < |both| ensures both[i] != both[j] {
      assert i < |s| ==> both[i] in Elements(s);
      assert j >= |s| ==> both[j] in Elements(t);
    }
    assert Elements(both) == Elements(s) + Elements(t);
  }

  /** The two cycle detectors agree: on a closed graph the Kahn loop drains every task exactly when there
      is no cycle, which is when the depth-first search reports nothing. */
  lemma DrainsAllIffAcyclic(d: Deps, layers: seq<seq<Id>>)
    requires Closed(d)
    requires LayersOf(d, layers) && Layer(d, |layers|) == {}
    ensures |Flatten(layers)| == |d| <==> Acyclic(d)
    ensures Acyclic(d) <==> Done(d, |layers|) == d.Keys
  {
    var done := Done(d, |layers|);
    FlattenLists(d, layers);
    NoRepeatsCount(Flatten(layers));
    ExhaustedIffAcyclic(d, |layers|);
    DoneGrows(d, |layers|);
    if |done| == |d.Keys| {
      SubsetCount(done, d.Keys);
      assert d.Keys == done + (d.Keys - done);
      assert |d.Keys - done| == 0;
    }
  }

  lemma PlanFromLayers(d: Deps, plan: GraphPlan)
    requires LayersOf(d, plan.parallelLayers) && Done(d, |plan.parallelLayers|) == d.Keys
    requires plan.topologicalOrder == Flatten(plan.parallelLayers)
    requires SortedBlockers(d, plan.blockedBy)
    ensures IsPlan(d, plan)
  {
  }

  // ----- what a plan means -----

  /** The order is a permutation of the task ids with every dependency strictly earlier. */
  lemma PlanIsTopological(d: Deps, plan: GraphPlan)
    requires Closed(d) && IsPlan(d, plan)
    ensures Lists(plan.topologicalOrder, d.Keys)
    ensures DependenciesFirst(d, plan.topologicalOrder)
  {
    FlattenLists(d, plan.parallelLayers);
    FlattenInOrder(d, plan.parallelLayers);
  }

  lemma {:induction false} FlattenInOrder(d: Deps, layers: seq<seq<Id>>)
    requires LayersOf(d, layers)
    ensures DependenciesFirst(d, Flatten(layers))
  {
    if layers != [] {
      var k := |layers| - 1;
      var rest, last := layers[..k], layers[k];
      assert LayersOf(d, rest);
      FlattenInOrder(d, rest);
      FlattenLists(d, rest);
      assert IsLayer(d, k, last);
      var head, order := Flatten(rest), Flatten(layers);
      forall i | 0 <= i < |order|
        ensures order[i] in d && forall x :: x in d[order[i]].needs && x in d ==> x in order[..i]
      {
        if i < |head| {
          assert order[..i] == head[..i];
        } else {
          assert last[i - |head|] in Elements(last);
          LayerIsOneAfterDependencies(d, k, order[i]);
          assert head <= order[..i];
          forall x | x in d[order[i]].needs ensures x in order[..i] {
            assert x in Elements(head);
          }
        }
      }
    }
  }

  /** A task in layer `k` has all dependencies in earlier layers, one of them in layer `k - 1` unless `k`
      is 0, in which case it has none. */
  lemma PlanLayersFollowDependencies(d: Deps, plan: GraphPlan, k: nat, t: Id)
    requires IsPlan(d, plan)
    requires k < |plan.parallelLayers| && t in plan.parallelLayers[k]
    ensures t in d && forall x :: x in d[t].needs ==> exists j :: 0 <= j < k && x in plan.parallelLayers[j]
    ensures k == 0 <==> d[t].needs == {}
    ensures k > 0 ==> exists x :: x in d[t].needs && x in plan.parallelLayers[k - 1]
  {
    var layers := plan.parallelLayers;
    forall j | 0 <= j < |layers| ensures Elements(layers[j]) == Layer(d, j) {
      assert IsLayer(d, j, layers[j]);
    }
    assert t in Elements(layers[k]);
    LayerIsOneAfterDependencies(d, k, t);
    forall x | x in d[t].needs ensures exists j :: 0 <= j < k && x in layers[j] {
      DoneIsLayers(d, k, x);
      var j :| 0 <= j < k && x in Layer(d, j);
      assert x in Elements(layers[j]);
    }
    if k > 0 {
      var x :| x in d[t].needs * Layer(d, k - 1);
      assert x in Elements(layers[k - 1]);
    }
  }

  /** Each task is in exactly one layer. */
  lemma PlanLayersPartition(d: Deps, plan: GraphPlan, t: Id)
    requires IsPlan(d, plan)
    ensures t in d <==> exists k :: 0 <= k < |plan.parallelLayers| && t in plan.parallelLayers[k]
    ensures forall j, k :: 0 <= j < k < |plan.parallelLayers| ==> !(t in plan.parallelLayers[j] && t in plan.parallelLayers[k])
  {
    hide Layer, Done;
    var layers := plan.parallelLayers;
    forall k | 0 <= k < |layers| ensures t in layers[k] <==> t in Layer(d, k) {
      assert IsLayer(d, k, layers[k]);
      assert t in layers[k] <==> t in Elements(layers[k]);
    }
    DoneIsLayers(d, |layers|, t);
    forall j, k | 0 <= j < k < |layers| && t in Layer(d, j) ensures t !in Layer(d, k) {
      if t in Layer(d, k) { LayersDisjoint(d, j, k, t); }
    }
  }

  /** No schedule of rounds runs a task before its layer, and the number of layers is the length of the
      longest dependency chain. */
  lemma PlanIsOptimal(d: Deps, plan: GraphPlan)
    requires Closed(d) && IsPlan(d, plan)
    ensures forall round, k, t :: Schedule(d, round) && 0 <= k < |plan.parallelLayers| && t in plan.parallelLayers[k]
                                  ==> t in round && k <= round[t]
    ensures forall p :: IsWalk(d, p) ==> |p| <= |plan.parallelLayers|
    ensures d != map[] ==> exists p :: IsWalk(d, p) && |p| == |plan.parallelLayers|
  {
    hide LayersOf, SortedBlockers, Schedule, Layer;
    var layers := plan.parallelLayers;
    forall round, k, t | Schedule(d, round) && 0 <= k < |layers| && t in layers[k]
      ensures t in round && k <= round[t]
    {
      PlanIsEarliest(d, plan, round, k, t);
    }
    forall p | IsWalk(d, p) ensures |p| <= |layers| {
      WalkFitsInRounds(d, |layers|, p);
    }
    if d != map[] {
      var p := PlanHasChain(d, plan);
    }
  }

  lemma PlanIsEarliest(d: Deps, plan: GraphPlan, round: map<Id, nat>, k: nat, t: Id)
    requires IsPlan(d, plan) && Schedule(d, round)
    requires k < |plan.parallelLayers| && t in plan.parallelLayers[k]
    ensures t in round && k <= round[t]
  {
    assert IsLayer(d, k, plan.parallelLayers[k]);
    assert t in Elements(plan.parallelLayers[k]);
    DoneGrows(d, k);
    LayersAreEarliest(d, round, k, t);
  }

  lemma PlanHasChain(d: Deps, plan: GraphPlan) returns (p: seq<Id>)
    requires IsPlan(d, plan) && d != map[]
    ensures IsWalk(d, p) && |p| == |plan.parallelLayers|
  {
    var layers := plan.parallelLayers;
    var k := |layers| - 1;
    assert IsLayer(d, k, layers[k]);
    assert layers[k][0] in Elements(layers[k]);
    p := LayerHasChain(d, k, layers[k][0]);
  }

  /** A dependency graph has one plan. */
  lemma PlanIsUnique(d: Deps, p: GraphPlan, q: GraphPlan)
    requires IsPlan(d, p) && IsPlan(d, q)
    ensures p == q
  {
    NoMoreLayers(d, p.parallelLayers, q.parallelLayers);
    NoMoreLayers(d, q.parallelLayers, p.parallelLayers);
    forall k | 0 <= k < |p.parallelLayers| ensures p.parallelLayers[k] == q.parallelLayers[k] {
      assert IsLayer(d, k, p.parallelLayers[k]) && IsLayer(d, k, q.parallelLayers[k]);
      SortedUnique(p.parallelLayers[k], q.parallelLayers[k]);
    }
    assert p.parallelLayers == q.parallelLayers;
    forall t | t in p.blockedBy ensures p.blockedBy[t] == q.blockedBy[t] {
      SortedUnique(p.blockedBy[t], q.blockedBy[t]);
    }
    assert p.blockedBy == q.blockedBy;
  }

  lemma NoMoreLayers(d: Deps, few: seq<seq<Id>>, many: seq<seq<Id>>)
    requires LayersOf(d, many)
    requires Done(d, |few|) == d.Keys
    ensures |many| <= |few|
  {
    if |few| < |many| {
      assert IsLayer(d, |few|, many[|few|]);
      assert many[|few|][0] in Elements(many[|few|]);
      DoneGrows(d, |few|);
      assert false;
    }
  }

  // ----- independence of the input order -----

  /** The same tasks up to the order of each dependency list and of the list, which `place` permutes and
      `back` puts back. */
  ghost predicate SameUpToOrder(ts: seq<Task>, us: seq<Task>, place: seq<nat>, back: seq<nat>) {
    && |ts| == |us| == |place| == |back|
    && (forall i :: 0 <= i < |ts| ==>
          place[i] < |us| && back[place[i]] == i && SameTaskUpToOrder(ts[i], us[place[i]]))
    && (forall j :: 0 <= j < |us| ==> back[j] < |ts| && place[back[j]] == j)
  }

  ghost predicate SameTaskUpToOrder(t: Task, u: Task) {
    t.id == u.id && multiset(t.dependsOn) == multiset(u.dependsOn)
  }

  ghost predicate Covered(ts: seq<Task>, us: seq<Task>) {
    forall t :: t in ts ==> exists u :: u in us && SameTaskUpToOrder(t, u)
  }

  lemma Counterpart(ts: seq<Task>, us: seq<Task>, t: Task) returns (u: Task)
    requires Covered(ts, us) && t in ts
    ensures u in us && SameTaskUpToOrder(t, u)
  {
    u :| u in us && SameTaskUpToOrder(t, u);
  }

  /** Permuting the tasks, or any dependency list, changes neither whether the list plans nor the plan. */
  lemma PlanIgnoresInputOrder(ts: seq<Task>, us: seq<Task>, place: seq<nat>, back: seq<nat>, p: GraphPlan, q: GraphPlan)
    requires SameUpToOrder(ts, us, place, back)
    ensures Plannable(ts) <==> Plannable(us)
    ensures Plannable(ts) && IsPlan(DepsOf(ts), p) && IsPlan(DepsOf(us), q) ==> p == q
  {
    SameBackwards(ts, us, place, back);
    if Structured(ts) { SameStructure(ts, us, place, back); }
    if Structured(us) { SameStructure(us, ts, back, place); }
    if Plannable(ts) && IsPlan(DepsOf(ts), p) && IsPlan(DepsOf(us), q) {
      PlanIsUnique(DepsOf(ts), p, q);
    }
  }

  lemma SameBackwards(ts: seq<Task>, us: seq<Task>, place: seq<nat>, back: seq<nat>)
    requires SameUpToOrder(ts, us, place, back)
    ensures SameUpToOrder(us, ts, back, place)
  {
    forall j | 0 <= j < |us| ensures SameTaskUpToOrder(us[j], ts[back[j]]) {
      assert SameTaskUpToOrder(ts[back[j]], us[place[back[j]]]);
    }
  }

  lemma SameStructure(ts: seq<Task>, us: seq<Task>, place: seq<nat>, back: seq<nat>)
    requires SameUpToOrder(ts, us, place, back) && SameUpToOrder(us, ts, back, place)
    requires Structured(ts)
    ensures Structured(us)
    ensures DepsOf(ts) == DepsOf(us)
  {
    hide SameUpToOrder, Covered, DistinctIds, TaskIds, DepsOf, TaskStructured;
    SameDistinct(ts, us, place, back);
    SameMembers(ts, us, place, back);
    SameMembers(us, ts, back, place);
    SameIds(ts, us);
    DistinctDeps(ts);
    DistinctDeps(us);
    forall u | u in us
      ensures TaskStructured(TaskIds(us), u)
      ensures u.id in DepsOf(us) && u.id in DepsOf(ts) && DepsOf(us)[u.id] == DepsOf(ts)[u.id]
    {
      var t := Counterpart(us, ts, u);
      SameTask(ts, us, t, u);
    }
    EqualDeps(us, DepsOf(ts), DepsOf(us));
  }

  lemma SameTask(ts: seq<Task>, us: seq<Task>, t: Task, u: Task)
    requires Structured(ts) && DistinctIds(us, TaskId) && TaskIds(ts) == TaskIds(us)
    requires t in ts && u in us && SameTaskUpToOrder(u, t)
    ensures TaskStructured(TaskIds(us), u)
    ensures u.id in DepsOf(us) && u.id in DepsOf(ts) && DepsOf(us)[u.id] == DepsOf(ts)[u.id]
  {
    hide TaskIds, DepsOf, DistinctIds, NoRepeats, Elements;
    DistinctDeps(ts);
    DistinctDeps(us);
    assert TaskStructured(TaskIds(ts), t);
    SameDependencies(t, u);
    SameTaskStructured(TaskIds(ts), t, u);
    assert DepsOf(us)[u.id].needs == DepsOf(ts)[u.id].needs;
  }

  lemma EqualDeps(us: seq<Task>, d: Deps, e: Deps)
    requires d.Keys == e.Keys == TaskIds(us)
    requires forall u :: u in us ==> u.id in e && u.id in d && e[u.id] == d[u.id]
    ensures d == e
  {
  }

  lemma SameTaskStructured(ids: set<Id>, t: Task, u: Task)
    requires TaskStructured(ids, t) && SameTaskUpToOrder(u, t)
    requires NoRepeats(u.dependsOn) && Elements(t.dependsOn) == Elements(u.dependsOn)
    ensures TaskStructured(ids, u)
  {
    forall x | x in u.dependsOn ensures x in ids && x != u.id {
      assert x in Elements(t.dependsOn);
    }
  }

  lemma SameDistinct(ts: seq<Task>, us: seq<Task>, place: seq<nat>, back: seq<nat>)
    requires SameUpToOrder(us, ts, back, place)
    requires DistinctIds(ts, TaskId)
    ensures DistinctIds(us, TaskId)
  {
    forall i, j | 0 <= i < j < |us| ensures TaskId(us[i]) != TaskId(us[j]) {
      assert place[back[i]] == i && place[back[j]] == j;
      assert SameTaskUpToOrder(us[i], ts[back[i]]) && SameTaskUpToOrder(us[j], ts[back[j]]);
      assert TaskId(ts[back[i]]) != TaskId(ts[back[j]]);
    }
  }

  lemma SameMembers(ts: seq<Task>, us: seq<Task>, place: seq<nat>, back: seq<nat>)
    requires SameUpToOrder(ts, us, place, back)
    ensures Covered(ts, us)
  {
    forall t | t in ts ensures exists u :: u in us && SameTaskUpToOrder(t, u) {
      var i :| 0 <= i < |ts| && ts[i] == t;
      assert us[place[i]] in us && SameTaskUpToOrder(t, us[place[i]]);
    }
  }

  lemma SameIds(ts: seq<Task>, us: seq<Task>)
    requires Covered(ts, us) && Covered(us, ts)
    ensures TaskIds(ts) == TaskIds(us)
  {
    hide Covered;
    IdsWithin(ts, us);
    IdsWithin(us, ts);
  }

  lemma IdsWithin(ts: seq<Task>, us: seq<Task>)
    requires Covered(ts, us)
    ensures TaskIds(ts) <= TaskIds(us)
  {
    forall id | id in TaskIds(ts) ensures id in TaskIds(us) {
      var t :| t in ts && t.id == id;
      var u :| u in us && SameTaskUpToOrder(t, u);
    }
  }

  lemma SameDependencies(t: Task, u: Task)
    requires SameTaskUpToOrder(u, t)
    requires NoRepeats(t.dependsOn)
    ensures NoRepeats(u.dependsOn)
    ensures Elements(t.dependsOn) == Elements(u.dependsOn)
  {
    var a, b := t.dependsOn, u.dependsOn;
    forall x ensures x in a <==> x in b {
      assert x in multiset(a) <==> x in multiset(b);
    }
    if !NoRepeats(b) {
      var i, j :| 0 <= i < j < |b| && b[i] == b[j];
      assert b[..j][i] == b[j];
      OccursTwice(b, j);
      OccursOnce(a, b[j]);
      assert false;
    }
  }
}
