/** The structural checks of a task list: distinct ids, and known, distinct, foreign dependencies. */
module Structure {
  import opened Records
  import opened Dependency

  function TaskIds(tasks: seq<Task>): set<Id> {
    Ids(tasks, TaskId)
  }

  ghost predicate TaskStructured(ids: set<Id>, task: Task) {
    && NoRepeats(task.dependsOn)
    && forall x :: x in task.dependsOn ==> x in ids && x != task.id
  }

  /** Distinct task ids, and each task lists distinct known dependencies other than itself. */
  ghost predicate Structured(tasks: seq<Task>) {
    DistinctIds(tasks, TaskId) && forall t :: t in tasks ==> TaskStructured(TaskIds(tasks), t)
  }

  /** What is wrong with a task that lists these dependencies, some of them repeatedly. */
  ghost predicate Fault(ids: set<Id>, task: Id, listed: set<Id>, repeated: set<Id>, x: Issue) {
    match x
    case UnknownDependency(t, dep) => t == task && dep in listed && dep !in ids
    case SelfDependency(t) => t == task && task in listed
    case DuplicateDependency(t, dep) => t == task && dep in repeated
    case _ => false
  }

  ghost predicate DependencyFault(ids: set<Id>, task: Task, x: Issue) {
    Fault(ids, task.id, Elements(task.dependsOn), Repeated(task.dependsOn), x)
  }

  ghost predicate DuplicatedId(tasks: seq<Task>, id: Id) {
    exists i, j :: 0 <= i < j < |tasks| && tasks[i].id == id == tasks[j].id
  }

  /** Everything that is structurally wrong with a task list. */
  ghost predicate StructuralFault(tasks: seq<Task>, x: Issue) {
    match x
    case DuplicateTask(id) => DuplicatedId(tasks, id)
    case _ => exists t :: t in tasks && DependencyFault(TaskIds(tasks), t, x)
  }

  /** The complaints about one more dependency. */
  function FaultsOf(ids: set<Id>, task: Id, seen: set<Id>, dep: Id): seq<Issue> {
    (if dep !in ids then [UnknownDependency(task, dep)] else [])
    + (if dep == task then [SelfDependency(task)] else [])
    + (if dep in seen then [DuplicateDependency(task, dep)] else [])
  }

  lemma FaultsNext(ids: set<Id>, task: Id, seen: set<Id>, repeated: set<Id>, dep: Id)
    ensures forall x :: Fault(ids, task, seen + {dep}, repeated + (if dep in seen then {dep} else {}), x) <==>
                          Fault(ids, task, seen, repeated, x) || x in FaultsOf(ids, task, seen, dep)
  {
  }

  lemma NoFaults(ids: set<Id>, task: Task)
    ensures (forall x :: !DependencyFault(ids, task, x)) <==> TaskStructured(ids, task)
  {
    RepeatedNone(task.dependsOn);
    if forall x :: !DependencyFault(ids, task, x) {
      forall dep | dep in task.dependsOn ensures dep in ids && dep != task.id {
        assert !DependencyFault(ids, task, UnknownDependency(task.id, dep));
        assert !DependencyFault(ids, task, SelfDependency(task.id));
      }
      forall dep ensures dep !in Repeated(task.dependsOn) {
        assert !DependencyFault(ids, task, DuplicateDependency(task.id, dep));
      }
    }
  }

  /** The checks of one task complain about exactly what is wrong with its dependencies. */
  method TaskDependencyIssues(ids: set<Id>, task: Task) returns (issues: seq<Issue>)
    ensures forall x :: x in issues <==> DependencyFault(ids, task, x)
  {
    hide Fault, Elements, Repeated;
    issues := [];
    var seen := {};
    ghost var repeated: set<Id> := {};
    var deps := task.dependsOn;
    ElementsAll(deps);
    RepeatedNone(deps);
    NoFaultYet(ids, task.id);
    for i := 0 to |deps|
      invariant seen == Elements(deps[..i]) && repeated == Repeated(deps[..i])
      invariant forall x :: x in issues <==> Fault(ids, task.id, seen, repeated, x)
    {
      var dep := deps[i];
      ElementsNext(deps, i);
      RepeatedNext(deps, i);
      FaultsNext(ids, task.id, seen, repeated, dep);
      ghost var before := issues;
      if dep !in ids {
        issues := issues + [UnknownDependency(task.id, dep)];
      }
      if dep == task.id {
        issues := issues + [SelfDependency(task.id)];
      }
      if dep in seen {
        issues := issues + [DuplicateDependency(task.id, dep)];
      }
      assert issues == before + FaultsOf(ids, task.id, seen, dep);
      repeated := repeated + (if dep in seen then {dep} else {});
      seen := seen + {dep};
    }
  }

  lemma NoFaultYet(ids: set<Id>, task: Id)
    ensures forall x :: !Fault(ids, task, {}, {}, x)
  {
  }

  /** The structural checks complain about exactly what is wrong, and so about nothing exactly in a sound list. */
  method DependencyStructuralIssues(tasks: seq<Task>) returns (issues: seq<Issue>)
    ensures forall x :: x in issues <==> StructuralFault(tasks, x)
    ensures issues == [] <==> Structured(tasks)
  {
    hide FaultUpTo, StructuralFault, DependencyFault, TaskIds, Structured, Ids;
    issues := [];
    var ids := TaskIds(tasks);
    var seen := {};
    NothingChecked(tasks);
    for i := 0 to |tasks|
      invariant seen == TaskIds(tasks[..i])
      invariant forall x :: x in issues <==> FaultUpTo(tasks, i, x)
    {
      var task := tasks[i];
      OneMoreChecked(tasks, i);
      if task.id in seen {
        issues := issues + [DuplicateTask(task.id)];
      }
      seen := seen + {task.id};
      var more := TaskDependencyIssues(ids, task);
      issues := issues + more;
    }
    NoStructuralFaults(tasks);
    assert issues != [] ==> issues[0] in issues;
  }

  ghost predicate FaultUpTo(tasks: seq<Task>, n: nat, x: Issue)
    requires n <= |tasks|
  {
    match x
    case DuplicateTask(id) => DuplicatedId(tasks[..n], id)
    case _ => exists j :: 0 <= j < n && DependencyFault(TaskIds(tasks), tasks[j], x)
  }

  lemma NothingChecked(tasks: seq<Task>)
    ensures TaskIds(tasks[..0]) == {}
    ensures forall x :: !FaultUpTo(tasks, 0, x)
    ensures forall x :: FaultUpTo(tasks, |tasks|, x) <==> StructuralFault(tasks, x)
  {
    assert tasks[..|tasks|] == tasks;
    forall x ensures FaultUpTo(tasks, |tasks|, x) <==> StructuralFault(tasks, x) {
      hide DependencyFault;
      if !x.DuplicateTask? && StructuralFault(tasks, x) {
        var t :| t in tasks && DependencyFault(TaskIds(tasks), t, x);
        var j :| 0 <= j < |tasks| && tasks[j] == t;
      }
    }
  }

  lemma OneMoreChecked(tasks: seq<Task>, i: nat)
    requires i < |tasks|
    ensures TaskIds(tasks[..i + 1]) == TaskIds(tasks[..i]) + {tasks[i].id}
    ensures forall x :: FaultUpTo(tasks, i + 1, x) <==>
                          || FaultUpTo(tasks, i, x)
                          || (tasks[i].id in TaskIds(tasks[..i]) && x == DuplicateTask(tasks[i].id))
                          || DependencyFault(TaskIds(tasks), tasks[i], x)
    ensures tasks[i].id in TaskIds(tasks[..i]) ==> FaultUpTo(tasks, i + 1, DuplicateTask(tasks[i].id))
  {
    IdsNext(tasks, TaskId, i);
    forall x
      ensures FaultUpTo(tasks, i + 1, x) <==>
                || FaultUpTo(tasks, i, x)
                || (tasks[i].id in TaskIds(tasks[..i]) && x == DuplicateTask(tasks[i].id))
                || DependencyFault(TaskIds(tasks), tasks[i], x)
    {
      if x.DuplicateTask? {
        DuplicatedNext(tasks, i, x.task);
      } else {
        hide DependencyFault;
      }
    }
  }

  lemma DuplicatedNext(tasks: seq<Task>, i: nat, id: Id)
    requires i < |tasks|
    ensures DuplicatedId(tasks[..i + 1], id) <==>
              DuplicatedId(tasks[..i], id) || (id == tasks[i].id && id in TaskIds(tasks[..i]))
  {
    assert tasks[..i + 1] == tasks[..i] + [tasks[i]];
    StillDuplicated(tasks[..i], tasks[i], id);
    NewlyDuplicated(tasks[..i], tasks[i], id);
  }

  lemma StillDuplicated(tasks: seq<Task>, task: Task, id: Id)
    ensures DuplicatedId(tasks, id) || (id == task.id && id in TaskIds(tasks)) ==> DuplicatedId(tasks + [task], id)
  {
    var more := tasks + [task];
    if DuplicatedId(tasks, id) {
      var a, b :| 0 <= a < b < |tasks| && tasks[a].id == id == tasks[b].id;
      assert more[a].id == id == more[b].id;
    } else if id == task.id && id in TaskIds(tasks) {
      var t :| t in tasks && TaskId(t) == id;
      var a :| 0 <= a < |tasks| && tasks[a] == t;
      assert more[a].id == id == more[|tasks|].id;
    }
  }

  lemma NewlyDuplicated(tasks: seq<Task>, task: Task, id: Id)
    ensures DuplicatedId(tasks + [task], id) ==> DuplicatedId(tasks, id) || (id == task.id && id in TaskIds(tasks))
  {
    var more := tasks + [task];
    if DuplicatedId(more, id) {
      var a, b :| 0 <= a < b < |more| && more[a].id == id == more[b].id;
      if b < |tasks| {
        assert tasks[a].id == id == tasks[b].id;
      } else {
        assert tasks[a] in tasks && TaskId(tasks[a]) == id;
      }
    }
  }

  lemma DistinctWithoutDuplicates(tasks: seq<Task>)
    ensures DistinctIds(tasks, TaskId) <==> forall id :: !DuplicatedId(tasks, id)
  {
    if DistinctIds(tasks, TaskId) {
      forall i, j | 0 <= i < j < |tasks| ensures tasks[i].id != tasks[j].id {
        assert TaskId(tasks[i]) != TaskId(tasks[j]);
      }
    } else {
      var i, j :| 0 <= i < j < |tasks| && TaskId(tasks[i]) == TaskId(tasks[j]);
      assert tasks[i].id == tasks[i].id == tasks[j].id;
      assert DuplicatedId(tasks, tasks[i].id);
    }
  }

  lemma NoStructuralFaults(tasks: seq<Task>)
    ensures (forall x :: !StructuralFault(tasks, x)) <==> Structured(tasks)
  {
    hide DependencyFault, TaskStructured, TaskIds;
    forall t | t in tasks
      ensures (forall x :: !DependencyFault(TaskIds(tasks), t, x)) <==> TaskStructured(TaskIds(tasks), t)
    {
      NoFaults(TaskIds(tasks), t);
    }
    hide DuplicatedId, DistinctIds;
    DistinctWithoutDuplicates(tasks);
    forall id ensures StructuralFault(tasks, DuplicateTask(id)) <==> DuplicatedId(tasks, id) {
    }
    forall t, x | t in tasks && DependencyFault(TaskIds(tasks), t, x) ensures StructuralFault(tasks, x) {
      NotAboutDuplicates(TaskIds(tasks), t, x);
    }
  }

  lemma NotAboutDuplicates(ids: set<Id>, task: Task, x: Issue)
    ensures DependencyFault(ids, task, x) ==> !x.DuplicateTask?
  {
  }

  lemma FaultInList(tasks: seq<Task>, task: Task, x: Issue)
    requires task in tasks && x.UnknownDependency? && DependencyFault(TaskIds(tasks), task, x)
    ensures StructuralFault(tasks, x)
  {
  }

  lemma DistinctDeps(tasks: seq<Task>)
    requires DistinctIds(tasks, TaskId)
    ensures DepsOf(tasks).Keys == TaskIds(tasks)
    ensures forall t :: t in tasks ==> t.id in DepsOf(tasks) && DepsOf(tasks)[t.id].needs == Elements(t.dependsOn)
    ensures |DepsOf(tasks)| == |tasks|
  {
    IdsAll(tasks, TaskId);
    assert DepsOf(tasks).Keys == LastById(tasks, TaskId).Keys;
    forall t | t in tasks
      ensures t.id in DepsOf(tasks) && DepsOf(tasks)[t.id].needs == Elements(t.dependsOn)
    {
      OnlyWithId(tasks, TaskId, t);
      assert TaskId(t) == t.id;
    }
    CountIds(tasks, TaskId);
  }

  lemma IdList(tasks: seq<Task>) returns (ids: seq<Id>)
    requires DistinctIds(tasks, TaskId)
    ensures |ids| == |tasks| && NoRepeats(ids) && Elements(ids) == TaskIds(tasks)
    ensures forall i :: 0 <= i < |tasks| ==> ids[i] == tasks[i].id
  {
    ids := seq(|tasks|, i requires 0 <= i < |tasks| => tasks[i].id);
    forall i, j | 0 <= i < j < |ids| ensures ids[i] != ids[j] {
      assert TaskId(tasks[i]) != TaskId(tasks[j]);
    }
    forall id ensures id in Elements(ids) <==> id in TaskIds(tasks) {
      if id in TaskIds(tasks) {
        var t :| t in tasks && TaskId(t) == id;
        var i :| 0 <= i < |tasks| && tasks[i] == t;
        assert ids[i] == id;
      }
      if id in ids {
        var i :| 0 <= i < |ids| && ids[i] == id;
        assert tasks[i] in tasks && TaskId(tasks[i]) == id;
      }
    }
  }
}
