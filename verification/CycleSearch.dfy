/** The recursive three-colour depth-first search for dependency cycles. */
module CycleSearch {
  import opened Records
  import opened Dependency

  /** Some report ends with the step from `a` to its dependency `b`, which closes the loop. */
  ghost predicate ClosedBy(cycles: seq<seq<Id>>, a: Id, b: Id) {
    exists c :: c in cycles && |c| >= 2 && c[|c| - 2] == a && c[|c| - 1] == b
  }

  /** Each known dependency of a listed task is listed earlier, unless the step to it was reported. */
  ghost predicate FirstUnlessReported(d: Deps, cycles: seq<seq<Id>>, order: seq<Id>) {
    forall i :: 0 <= i < |order| ==>
      order[i] in d && forall x :: x in d[order[i]].needs && x in d ==> x in order[..i] || ClosedBy(cycles, order[i], x)
  }

  /** What holds between two steps of the search: the trail is a walk and holds what is being visited, each
      report is a loop, and apart from reported steps the visits ended in dependencies-first order. */
  ghost predicate Coherent(d: Deps, visiting: set<Id>, visited: set<Id>, trail: seq<Id>,
                           cycles: seq<seq<Id>>, finished: seq<Id>)
  {
    && TrailHolds(d, visiting, trail)
    && visited == Elements(finished)
    && (forall c :: c in cycles ==> LoopTrail(d, c))
    && FirstUnlessReported(d, cycles, finished)
  }

  ghost predicate TrailHolds(d: Deps, visiting: set<Id>, trail: seq<Id>) {
    NoRepeats(trail) && visiting == Elements(trail) && (trail != [] ==> IsWalk(d, trail))
  }

  /** A dependency that is being visited closes a loop. */
  lemma Report(d: Deps, visiting: set<Id>, visited: set<Id>, trail: seq<Id>, cycles: seq<seq<Id>>,
               finished: seq<Id>, id: Id)
    requires Coherent(d, visiting, visited, trail, cycles, finished)
    requires id in visiting && trail[|trail| - 1] in d && id in d[trail[|trail| - 1]].needs
    ensures Coherent(d, visiting, visited, trail, cycles + [trail + [id]], finished)
  {
    var t := trail + [id];
    assert t[..|t| - 1] == trail;
    assert LoopTrail(d, t);
    MoreReports(cycles, t);
  }

  lemma MoreReports(cycles: seq<seq<Id>>, t: seq<Id>)
    ensures forall a, b :: ClosedBy(cycles, a, b) ==> ClosedBy(cycles + [t], a, b)
    ensures |t| >= 2 ==> ClosedBy(cycles + [t], t[|t| - 2], t[|t| - 1])
  {
    var more := cycles + [t];
    assert more[|cycles|] == t && t in more;
    forall a, b | ClosedBy(cycles, a, b) ensures ClosedBy(more, a, b) {
      var c :| c in cycles && |c| >= 2 && c[|c| - 2] == a && c[|c| - 1] == b;
      assert c in more;
    }
  }

  lemma KeptReports(cycles: seq<seq<Id>>, more: seq<seq<Id>>)
    requires cycles <= more
    ensures forall a, b :: ClosedBy(cycles, a, b) ==> ClosedBy(more, a, b)
  {
    forall a, b | ClosedBy(cycles, a, b) ensures ClosedBy(more, a, b) {
      var c :| c in cycles && |c| >= 2 && c[|c| - 2] == a && c[|c| - 1] == b;
      assert c in more;
    }
  }

  lemma Enter(d: Deps, visiting: set<Id>, visited: set<Id>, trail: seq<Id>, cycles: seq<seq<Id>>,
              finished: seq<Id>, id: Id)
    requires Coherent(d, visiting, visited, trail, cycles, finished)
    requires id in d && id !in visiting
    requires trail != [] ==> trail[|trail| - 1] in d && id in d[trail[|trail| - 1]].needs
    ensures Coherent(d, visiting + {id}, visited, trail + [id], cycles, finished)
  {
    hide LoopTrail, FirstUnlessReported;
    assert forall x :: x in trail ==> x in visiting;
  }

  lemma Leave(d: Deps, visiting: set<Id>, visited: set<Id>, trail: seq<Id>, cycles: seq<seq<Id>>,
              finished: seq<Id>, id: Id)
    requires Coherent(d, visiting + {id}, visited, trail + [id], cycles, finished)
    requires id !in visiting && TrailHolds(d, visiting, trail)
    requires id in d && forall x :: x in d[id].needs && x in d ==> x in visited || ClosedBy(cycles, id, x)
    ensures Coherent(d, visiting, visited + {id}, trail, cycles, finished + [id])
  {
    hide LoopTrail, TrailHolds, ClosedBy;
    var order := finished + [id];
    assert Elements(order) == Elements(finished) + {id};
    forall i | 0 <= i < |order|
      ensures order[i] in d
      ensures forall x :: x in d[order[i]].needs && x in d ==> x in order[..i] || ClosedBy(cycles, order[i], x)
    {
      if i < |finished| {
        assert order[..i] == finished[..i];
      } else {
        assert order[..i] == finished;
        assert forall x :: x in Elements(finished) ==> x in finished;
      }
    }
  }

  ghost function Unvisited(d: Deps, visiting: set<Id>): nat {
    |d.Keys - visiting|
  }

  lemma FewerUnvisited(d: Deps, visiting: set<Id>, id: Id)
    requires id in d && id !in visiting
    ensures Unvisited(d, visiting + {id}) < Unvisited(d, visiting)
  {
    SmallerSet(d.Keys - (visiting + {id}), d.Keys - visiting, id);
  }

  lemma Pop(visiting: set<Id>, trail: seq<Id>, id: Id)
    requires id !in visiting
    ensures (trail + [id])[..|trail + [id]| - 1] == trail
    ensures visiting + {id} - {id} == visiting
  {
  }

  class Search {
    const byId: map<Id, Task>
    var visiting: set<Id>
    var visited: set<Id>
    var trail: seq<Id>
    var cycles: seq<seq<Id>>
    /** The visited tasks in the order in which their visits ended. */
    ghost var finished: seq<Id>

    ghost function Graph(): Deps { Edges(byId) }

    ghost predicate Valid()
      reads this
    {
      Coherent(Graph(), visiting, visited, trail, cycles, finished)
    }

    constructor (byId: map<Id, Task>)
      ensures Valid()
      ensures this.byId == byId
      ensures trail == [] && cycles == [] && finished == []
    {
      this.byId := byId;
      visiting, visited, trail, cycles, finished := {}, {}, [], [], [];
    }

    /** Visits a task that starts a new trail or is a dependency of the trail's last task. The trail is
        restored and reports are only added. A task that is being visited closes a loop and is reported, one that
        was visited before or is unknown changes nothing, and any other is visited when the call ends. */
    method Visit(taskId: Id)
      requires Valid()
      requires trail != [] ==>
                 trail[|trail| - 1] in Graph() && taskId in Graph()[trail[|trail| - 1]].needs
      modifies this
      ensures Valid()
      ensures trail == old(trail) && visiting == old(visiting)
      ensures old(cycles) <= cycles && old(visited) <= visited
      ensures taskId in old(visiting) ==> cycles == old(cycles) + [trail + [taskId]] && visited == old(visited)
      ensures taskId !in old(visiting) && (taskId in old(visited) || taskId !in byId) ==>
                cycles == old(cycles) && visited == old(visited)
      ensures taskId !in old(visiting) && taskId in byId ==> taskId in visited
      decreases Unvisited(Graph(), visiting), 0
    {
      hide Coherent, TrailHolds, Edges, Elements, Unvisited, ClosedBy;
      ghost var d := Graph();
      EdgesOfTasks(byId);
      VisitingKnown(d, visiting, visited, trail, cycles, finished);
      if taskId in visiting {
        Report(d, visiting, visited, trail, cycles, finished, taskId);
        cycles := cycles + [trail + [taskId]];
        return;
      }
      if taskId in visited || taskId !in byId {
        return;
      }
      Enter(d, visiting, visited, trail, cycles, finished, taskId);
      Pop(visiting, trail, taskId);
      FewerUnvisited(d, visiting, taskId);
      visiting := visiting + {taskId};
      trail := trail + [taskId];
      VisitDependencies(taskId);
      Leave(d, old(visiting), visited, old(trail), cycles, finished, taskId);
      trail := trail[..|trail| - 1];
      visiting := visiting - {taskId};
      visited := visited + {taskId};
      finished := finished + [taskId];
    }

    /** Visits each dependency of the trail's last task in turn. */
    method VisitDependencies(taskId: Id)
      requires Valid()
      requires taskId in byId && trail != [] && trail[|trail| - 1] == taskId
      modifies this
      ensures Valid()
      ensures trail == old(trail) && visiting == old(visiting)
      ensures old(cycles) <= cycles && old(visited) <= visited
      ensures forall x :: x in Graph()[taskId].needs && x in byId ==> x in visited || ClosedBy(cycles, taskId, x)
      decreases Unvisited(Graph(), visiting), 1
    {
      hide Coherent, TrailHolds, Edges, Elements, Unvisited, ClosedBy;
      EdgesOfTasks(byId);
      var dependsOn := byId[taskId].dependsOn;
      ElementsAll(dependsOn);
      for i := 0 to |dependsOn|
        invariant Valid()
        invariant trail == old(trail) && visiting == old(visiting)
        invariant old(cycles) <= cycles && old(visited) <= visited
        invariant forall x :: x in Elements(dependsOn[..i]) && x in byId ==> x in visited || ClosedBy(cycles, taskId, x)
      {
        ElementsNext(dependsOn, i);
        ghost var before := cycles;
        Visit(dependsOn[i]);
        MoreReports(before, trail + [dependsOn[i]]);
        KeptReports(before, cycles);
      }
    }
  }

  lemma EdgesOfTasks(byId: map<Id, Task>)
    ensures Edges(byId).Keys == byId.Keys
    ensures forall t :: t in byId ==> Edges(byId)[t].needs == Elements(byId[t].dependsOn)
  {
  }

  lemma VisitingKnown(d: Deps, visiting: set<Id>, visited: set<Id>, trail: seq<Id>, cycles: seq<seq<Id>>,
                      finished: seq<Id>)
    requires Coherent(d, visiting, visited, trail, cycles, finished)
    ensures TrailHolds(d, visiting, trail)
    ensures visiting <= d.Keys && (visiting == {} <==> trail == [])
  {
    assert trail != [] ==> trail[0] in Elements(trail);
  }

  /** Some report closes its loop with the step from `a` to `b`. */
  ghost predicate StepReported(issues: seq<Issue>, a: Id, b: Id) {
    exists x :: x in issues && x.CycleFound? && |x.trail| >= 2 &&
                x.trail[|x.trail| - 2] == a && x.trail[|x.trail| - 1] == b
  }

  ghost predicate HasReportedStep(issues: seq<Issue>, p: seq<Id>) {
    exists i :: 0 < i < |p| && StepReported(issues, p[i - 1], p[i])
  }

  /** The graph without the steps that close a reported loop. */
  ghost function Broken(d: Deps, cycles: seq<seq<Id>>): Deps {
    map t | t in d :: Node(set x | x in d[t].needs && !ClosedBy(cycles, t, x))
  }

  /** Taking away the last step of each report leaves no cycle. */
  lemma BrokenIsAcyclic(d: Deps, cycles: seq<seq<Id>>, finished: seq<Id>)
    requires FirstUnlessReported(d, cycles, finished) && d.Keys <= Elements(finished)
    ensures Acyclic(Broken(d, cycles))
  {
    hide ClosedBy;
    OrderedIsAcyclic(Broken(d, cycles), finished);
  }

  lemma ClosedWalkHasReport(d: Deps, cycles: seq<seq<Id>>, p: seq<Id>) returns (i: nat)
    requires Acyclic(Broken(d, cycles)) && ClosedWalk(d, p)
    ensures 0 < i < |p| && ClosedBy(cycles, p[i - 1], p[i])
  {
    hide ClosedBy;
    assert (forall i :: 0 < i < |p| ==> !ClosedBy(cycles, p[i - 1], p[i])) ==> ClosedWalk(Broken(d, cycles), p);
    i :| 0 < i < |p| && ClosedBy(cycles, p[i - 1], p[i]);
  }

  function CycleIssues(cycles: seq<seq<Id>>): (issues: seq<Issue>)
    ensures |issues| == |cycles| && forall i :: 0 <= i < |cycles| ==> issues[i] == CycleFound(cycles[i])
  {
    seq(|cycles|, i requires 0 <= i < |cycles| => CycleFound(cycles[i]))
  }

  lemma EveryCycleIsReported(d: Deps, cycles: seq<seq<Id>>)
    requires Acyclic(Broken(d, cycles))
    ensures forall p :: ClosedWalk(d, p) ==> HasReportedStep(CycleIssues(cycles), p)
  {
    hide Acyclic, Broken, ClosedWalk;
    forall p | ClosedWalk(d, p) ensures HasReportedStep(CycleIssues(cycles), p) {
      var i := ClosedWalkHasReport(d, cycles, p);
      var c :| c in cycles && |c| >= 2 && c[|c| - 2] == p[i - 1] && c[|c| - 1] == p[i];
      var k :| 0 <= k < |cycles| && cycles[k] == c;
      assert CycleIssues(cycles)[k] == CycleFound(c);
      assert StepReported(CycleIssues(cycles), p[i - 1], p[i]);
    }
  }

  /** The search reports nothing exactly when the dependency relation has no cycle. Each report is a dependency
      walk that comes back to itself, and every cycle has a step that closes a reported loop, so that without
      these steps there is no cycle left. Unknown dependencies are ignored, and of tasks with the same id the
      last one counts. */
  method DependencyCycleIssues(tasks: seq<Task>) returns (issues: seq<Issue>)
    ensures issues == [] <==> Acyclic(DepsOf(tasks))
    ensures forall x :: x in issues ==> x.CycleFound? && LoopTrail(DepsOf(tasks), x.trail)
    ensures forall p :: ClosedWalk(DepsOf(tasks), p) ==> HasReportedStep(issues, p)
  {
    hide FirstUnlessReported, LoopTrail, ClosedWalk, HasReportedStep, Broken, IsWalk;
    var search := new Search(LastById(tasks, TaskId));
    for i := 0 to |tasks|
      invariant search.Valid() && search.trail == [] && search.byId == LastById(tasks, TaskId)
      invariant forall j :: 0 <= j < i ==> tasks[j].id in search.visited
    {
      LastByIdFound(tasks, TaskId, tasks[i].id);
      assert TaskId(tasks[i]) == tasks[i].id;
      search.Visit(tasks[i].id);
    }
    issues := CycleIssues(search.cycles);
    forall id | id in DepsOf(tasks) ensures id in Elements(search.finished) {
      LastByIdFound(tasks, TaskId, id);
    }
    BrokenIsAcyclic(DepsOf(tasks), search.cycles, search.finished);
    EveryCycleIsReported(DepsOf(tasks), search.cycles);
    ReportedMeansCyclic(DepsOf(tasks), search.cycles);
  }

  lemma ReportedMeansCyclic(d: Deps, cycles: seq<seq<Id>>)
    requires forall c :: c in cycles ==> LoopTrail(d, c)
    requires forall p :: ClosedWalk(d, p) ==> HasReportedStep(CycleIssues(cycles), p)
    ensures CycleIssues(cycles) == [] <==> Acyclic(d)
    ensures forall x :: x in CycleIssues(cycles) ==> x.CycleFound? && LoopTrail(d, x.trail)
  {
    hide LoopTrail, ClosedWalk;
    if cycles != [] {
      assert cycles[0] in cycles;
      LoopTrailIsCycle(d, cycles[0]);
    }
    forall x | x in CycleIssues(cycles) ensures x.CycleFound? && LoopTrail(d, x.trail) {
      var k :| 0 <= k < |cycles| && CycleIssues(cycles)[k] == x;
      assert cycles[k] in cycles;
    }
  }
}
