/** Building the planner's tables: dependency counts, dependents and blockers. */
module EdgeTables {
  import opened Records
  import opened Dependency
  import opened Structure

  /** `s` lists the members of `e`, each once. */
  ghost predicate Lists(s: seq<Id>, e: set<Id>) {
    NoRepeats(s) && Elements(s) == e
  }

  lemma ListsOneMore(s: seq<Id>, e: set<Id>, x: Id)
    requires Lists(s, e) && x !in e
    ensures Lists(s + [x], e + {x})
  {
    assert forall y :: y in s ==> y in e;
  }

  ghost function Dependents(g: Deps, x: Id): set<Id> {
    set t | t in g && x in g[t].needs
  }

  /** How many of these dependencies are not done. */
  ghost function Undone(deps: set<Id>, done: set<Id>): nat {
    |deps - done|
  }

  ghost predicate CountsOf(g: Deps, done: set<Id>, indegree: map<Id, nat>) {
    indegree.Keys == g.Keys && forall t :: t in g ==> indegree[t] == Undone(g[t].needs, done)
  }

  ghost predicate DependentsOf(g: Deps, dependents: map<Id, seq<Id>>) {
    dependents.Keys == g.Keys && forall x :: x in g ==> Lists(dependents[x], Dependents(g, x))
  }

  ghost predicate BlockersOf(g: Deps, blockedBy: map<Id, seq<Id>>) {
    && blockedBy.Keys == (set t | t in g && g[t].needs != {})
    && forall t :: t in blockedBy ==> Lists(blockedBy[t], g[t].needs)
  }

  ghost predicate Tables(g: Deps, indegree: map<Id, nat>, dependents: map<Id, seq<Id>>, blockedBy: map<Id, seq<Id>>) {
    CountsOf(g, {}, indegree) && DependentsOf(g, dependents) && BlockersOf(g, blockedBy)
  }

  ghost function WithEdge(g: Deps, t: Id, x: Id): Deps
    requires t in g
  {
    g[t := Node(g[t].needs + {x})]
  }

  lemma OneMoreUndone(deps: set<Id>, x: Id)
    requires x !in deps
    ensures Undone(deps + {x}, {}) == Undone(deps, {}) + 1
  {
    assert deps - {} == deps && (deps + {x}) - {} == deps + {x};
  }

  lemma CountEdge(g: Deps, indegree: map<Id, nat>, t: Id, x: Id)
    requires CountsOf(g, {}, indegree)
    requires t in g && x !in g[t].needs
    ensures CountsOf(WithEdge(g, t, x), {}, indegree[t := indegree[t] + 1])
  {
    hide Undone;
    OneMoreUndone(g[t].needs, x);
  }

  lemma DependentEdge(g: Deps, dependents: map<Id, seq<Id>>, t: Id, x: Id)
    requires DependentsOf(g, dependents)
    requires t in g && x in g && x !in g[t].needs
    ensures DependentsOf(WithEdge(g, t, x), dependents[x := dependents[x] + [t]])
  {
    var h := WithEdge(g, t, x);
    forall y | y in g && y != x ensures Dependents(h, y) == Dependents(g, y) {
    }
    assert Dependents(h, x) == Dependents(g, x) + {t};
    ListsOneMore(dependents[x], Dependents(g, x), t);
  }

  lemma BlockerEdge(g: Deps, blockedBy: map<Id, seq<Id>>, t: Id, x: Id)
    requires BlockersOf(g, blockedBy)
    requires t in g && x !in g[t].needs
    ensures BlockersOf(WithEdge(g, t, x), blockedBy[t := (if t in blockedBy then blockedBy[t] else []) + [x]])
  {
    var before := if t in blockedBy then blockedBy[t] else [];
    assert Lists(before, g[t].needs);
    ListsOneMore(before, g[t].needs, x);
  }

  lemma NoEdges(g: Deps, indegree: map<Id, nat>, dependents: map<Id, seq<Id>>)
    requires g.Keys == indegree.Keys == dependents.Keys
    requires forall t :: t in g ==> g[t].needs == {} && indegree[t] == 0 && dependents[t] == []
    ensures Tables(g, indegree, dependents, map[])
  {
    forall t | t in g ensures Lists(dependents[t], Dependents(g, t)) {
      assert Dependents(g, t) == {};
    }
  }

  /** The edges of the tasks in `seen` only. */
  ghost function EdgesOf(d: Deps, seen: set<Id>): Deps {
    map t | t in d :: if t in seen then d[t] else Node({})
  }

  /** The edge tables of tasks with distinct ids, or the first unknown dependency. */
  method BuildTables(tasks: seq<Task>) returns (unknown: Option<Issue>, indegree: map<Id, nat>,
                                                dependents: map<Id, seq<Id>>, blockedBy: map<Id, seq<Id>>)
    requires DistinctIds(tasks, TaskId)
    ensures unknown.None? <==> Closed(DepsOf(tasks))
    ensures unknown.Some? ==> StructuralFault(tasks, unknown.value)
    ensures unknown.None? ==> Tables(DepsOf(tasks), indegree, dependents, blockedBy)
  {
    hide Tables, DepsOf, Elements, TaskIds, EdgesOf, Closed, NeedsWithin, StructuralFault, DependencyFault;
    var ids := TaskIds(tasks);
    ghost var d := DepsOf(tasks);
    DistinctDeps(tasks);
    indegree, dependents, blockedBy := NoTables(ids, d);
    EdgesOfNothing(d);
    ElementsAll(tasks);
    ghost var seen := {};
    for i := 0 to |tasks|
      invariant seen == TaskIds(tasks[..i])
      invariant Tables(EdgesOf(d, seen), indegree, dependents, blockedBy)
      invariant NeedsWithin(d, seen, ids)
    {
      var task := tasks[i];
      NextTask(tasks, i);
      OneMoreSeen(d, seen, task.id);
      unknown, indegree, dependents, blockedBy := AddTask(ids, task, EdgesOf(d, seen), indegree, dependents, blockedBy);
      MoreNeeds(d, seen, task.id);
      if unknown.Some? {
        FaultInList(tasks, task, unknown.value);
        return;
      }
      seen := seen + {task.id};
    }
    AllSeen(d);
    unknown := None;
  }

  method NoTables(ids: set<Id>, ghost d: Deps)
    returns (indegree: map<Id, nat>, dependents: map<Id, seq<Id>>, blockedBy: map<Id, seq<Id>>)
    requires d.Keys == ids
    ensures Tables(EdgesOf(d, {}), indegree, dependents, blockedBy)
  {
    indegree := map id | id in ids :: 0;
    dependents := map id | id in ids :: [];
    blockedBy := map[];
    NoEdges(EdgesOf(d, {}), indegree, dependents);
  }

  ghost predicate NeedsWithin(d: Deps, seen: set<Id>, ids: set<Id>) {
    forall t :: t in seen ==> t in d && d[t].needs <= ids
  }

  lemma MoreNeeds(d: Deps, seen: set<Id>, id: Id)
    requires id in d && NeedsWithin(d, seen, d.Keys)
    ensures NeedsWithin(d, seen + {id}, d.Keys) <==> d[id].needs <= d.Keys
    ensures Closed(d) ==> d[id].needs <= d.Keys
  {
  }

  lemma EdgesOfNothing(d: Deps)
    ensures TaskIds([]) == {} && NeedsWithin(d, {}, d.Keys)
  {
  }

  lemma OneMoreSeen(d: Deps, seen: set<Id>, id: Id)
    requires id in d && id !in seen
    ensures EdgesOf(d, seen).Keys == d.Keys && EdgesOf(d, seen)[id].needs == {}
    ensures EdgesOf(d, seen + {id}) == EdgesOf(d, seen)[id := d[id]]
  {
  }

  lemma AllSeen(d: Deps)
    ensures EdgesOf(d, d.Keys) == d
    ensures NeedsWithin(d, d.Keys, d.Keys) <==> Closed(d)
  {
  }

  lemma NextTask(tasks: seq<Task>, i: nat)
    requires DistinctIds(tasks, TaskId)
    requires i < |tasks|
    ensures TaskIds(tasks[..i + 1]) == TaskIds(tasks[..i]) + {tasks[i].id}
    ensures tasks[i].id !in TaskIds(tasks[..i])
    ensures tasks[i].id in DepsOf(tasks) && DepsOf(tasks)[tasks[i].id] == Node(Elements(tasks[i].dependsOn))
  {
    assert tasks[..i + 1] == tasks[..i] + [tasks[i]];
    forall t | t in tasks[..i] ensures t.id != tasks[i].id {
      var j :| 0 <= j < i && tasks[j] == t;
      assert TaskId(tasks[j]) != TaskId(tasks[i]);
    }
    DistinctDeps(tasks);
    assert tasks[i] in tasks;
  }

  lemma SetNode(g: Deps, t: Id, a: Node, b: Node)
    requires t in g
    ensures g[t := a][t := b] == g[t := b]
    ensures g[t := g[t]] == g
  {
  }

  method AddTask(ids: set<Id>, task: Task, ghost g: Deps, indegree0: map<Id, nat>,
                 dependents0: map<Id, seq<Id>>, blockedBy0: map<Id, seq<Id>>)
    returns (unknown: Option<Issue>, indegree: map<Id, nat>, dependents: map<Id, seq<Id>>, blockedBy: map<Id, seq<Id>>)
    requires g.Keys == ids && task.id in ids && g[task.id].needs == {}
    requires Tables(g, indegree0, dependents0, blockedBy0)
    ensures unknown.None? <==> Elements(task.dependsOn) <= ids
    ensures unknown.Some? ==> unknown.value.UnknownDependency? && DependencyFault(ids, task, unknown.value)
    ensures unknown.None? ==>
              Tables(g[task.id := Node(Elements(task.dependsOn))], indegree, dependents, blockedBy)
  {
    hide Tables, Elements;
    indegree, dependents, blockedBy := indegree0, dependents0, blockedBy0;
    var unique := {};
    ElementsAll(task.dependsOn);
    SetNode(g, task.id, g[task.id], g[task.id]);
    for j := 0 to |task.dependsOn|
      invariant Tables(g[task.id := Node(unique)], indegree, dependents, blockedBy)
      invariant unique == Elements(task.dependsOn[..j]) <= ids
    {
      var dep := task.dependsOn[j];
      ElementsNext(task.dependsOn, j);
      if dep !in ids {
        return Some(UnknownDependency(task.id, dep)), indegree, dependents, blockedBy;
      }
      if dep !in unique {
        indegree, dependents, blockedBy :=
          AddEdge(g[task.id := Node(unique)], task.id, dep, indegree, dependents, blockedBy);
        SetNode(g, task.id, Node(unique), Node(unique + {dep}));
        unique := unique + {dep};
      }
    }
    unknown := None;
  }

  lemma TablesHaveRows(g: Deps, indegree: map<Id, nat>, dependents: map<Id, seq<Id>>)
    requires CountsOf(g, {}, indegree) && DependentsOf(g, dependents)
    ensures indegree.Keys == dependents.Keys == g.Keys
  {
  }

  method AddEdge(ghost g: Deps, t: Id, x: Id, indegree0: map<Id, nat>,
                 dependents0: map<Id, seq<Id>>, blockedBy0: map<Id, seq<Id>>)
    returns (indegree: map<Id, nat>, dependents: map<Id, seq<Id>>, blockedBy: map<Id, seq<Id>>)
    requires t in g && x in g && x !in g[t].needs
    requires Tables(g, indegree0, dependents0, blockedBy0)
    ensures Tables(g[t := Node(g[t].needs + {x})], indegree, dependents, blockedBy)
  {
    hide CountsOf, DependentsOf, BlockersOf;
    TablesHaveRows(g, indegree0, dependents0);
    indegree := indegree0[t := indegree0[t] + 1];
    dependents := dependents0[x := dependents0[x] + [t]];
    blockedBy := blockedBy0[t := (if t in blockedBy0 then blockedBy0[t] else []) + [x]];
    CountEdge(g, indegree0, t, x);
    DependentEdge(g, dependents0, t, x);
    BlockerEdge(g, blockedBy0, t, x);
  }
}
