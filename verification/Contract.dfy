/** The contract checks of a task graph, and what they guarantee about task statuses. */
module Contract {
  import opened Records
  import opened Dependency
  import opened CycleSearch
  import opened Structure
  import opened Planner

  // ----- statuses of dependencies -----

  predicate DependencySatisfied(status: TaskStatus) {
    status == Accepted || status == Waived
  }

  predicate RequiresSatisfiedDependencies(status: TaskStatus) {
    status in {Ready, Assigned, InProgress, NeedsInfo, NeedsSupplement, Accepted}
  }

  function UnresolvedDependencies(byId: map<Id, Task>, deps: seq<Id>): seq<Id> {
    if deps == [] then []
    else
      (if deps[0] in byId && !DependencySatisfied(byId[deps[0]].status) then [deps[0]] else [])
      + UnresolvedDependencies(byId, deps[1..])
  }

  lemma {:induction false} UnresolvedAre(byId: map<Id, Task>, deps: seq<Id>, x: Id)
    ensures x in UnresolvedDependencies(byId, deps) <==>
              x in deps && x in byId && !DependencySatisfied(byId[x].status)
  {
    if deps != [] {
      UnresolvedAre(byId, deps[1..], x);
    }
  }

  /** `unresolved` are the dependencies at the positions `at`, which are, in order, those of the known dependencies
      neither accepted nor waived. */
  ghost predicate UnresolvedAt(byId: map<Id, Task>, deps: seq<Id>, at: seq<nat>, unresolved: seq<Id>) {
    && Increasing(at) && |at| == |unresolved|
    && (forall n :: 0 <= n < |at| ==> at[n] < |deps| && unresolved[n] == deps[at[n]])
    && forall i: nat :: i in at <==> i < |deps| && deps[i] in byId && byId[deps[i]].status !in {Accepted, Waived}
  }

  ghost function UnresolvedMarks(byId: map<Id, Task>, deps: seq<Id>): (marks: seq<bool>)
    ensures |marks| == |deps|
    ensures forall i :: 0 <= i < |deps| ==>
              marks[i] == (deps[i] in byId && byId[deps[i]].status !in {Accepted, Waived})
  {
    seq(|deps|, i requires 0 <= i < |deps| => deps[i] in byId && byId[deps[i]].status !in {Accepted, Waived})
  }

  lemma {:induction false} UnresolvedPicked(byId: map<Id, Task>, deps: seq<Id>) returns (at: seq<nat>)
    ensures Picked(deps, UnresolvedMarks(byId, deps), at, UnresolvedDependencies(byId, deps))
  {
    if deps == [] {
      at := [];
    } else {
      hide Picked, Shifted;
      var rest := UnresolvedPicked(byId, deps[1..]);
      assert UnresolvedMarks(byId, deps)[1..] == UnresolvedMarks(byId, deps[1..]);
      PickedNext(deps, UnresolvedMarks(byId, deps), rest, UnresolvedDependencies(byId, deps[1..]));
      at := Shifted(rest, UnresolvedMarks(byId, deps)[0]);
    }
  }

  /** The unresolved dependencies keep the order of the list, each as often as it is listed. */
  lemma UnresolvedInOrder(byId: map<Id, Task>, deps: seq<Id>) returns (at: seq<nat>)
    ensures UnresolvedAt(byId, deps, at, UnresolvedDependencies(byId, deps))
  {
    hide UnresolvedDependencies, Increasing;
    at := UnresolvedPicked(byId, deps);
  }

  /** An active or accepted task has only accepted or waived known dependencies. */
  ghost predicate StatusSound(byId: map<Id, Task>, task: Task) {
    RequiresSatisfiedDependencies(task.status) ==>
      forall x :: x in task.dependsOn && x in byId ==> DependencySatisfied(byId[x].status)
  }

  /** A task that needs its dependencies done, with the ones that are not. */
  ghost predicate StatusFault(byId: map<Id, Task>, task: Task, x: Issue) {
    && RequiresSatisfiedDependencies(task.status)
    && UnresolvedDependencies(byId, task.dependsOn) != []
    && x == Unresolved(task.id, UnresolvedDependencies(byId, task.dependsOn))
  }

  ghost predicate StatusFaultIn(tasks: seq<Task>, x: Issue) {
    exists t :: t in tasks && StatusFault(LastById(tasks, TaskId), t, x)
  }

  lemma NoStatusFault(byId: map<Id, Task>, task: Task)
    ensures StatusSound(byId, task) <==> forall x :: !StatusFault(byId, task, x)
  {
    var unresolved := UnresolvedDependencies(byId, task.dependsOn);
    forall x ensures x in unresolved <==> x in task.dependsOn && x in byId && !DependencySatisfied(byId[x].status) {
      UnresolvedAre(byId, task.dependsOn, x);
    }
    assert unresolved != [] ==> unresolved[0] in unresolved;
    assert RequiresSatisfiedDependencies(task.status) && unresolved != [] ==>
        StatusFault(byId, task, Unresolved(task.id, unresolved));
  }

  /** An active or accepted task depends on a known task that is neither accepted nor waived. */
  ghost predicate Unready(byId: map<Id, Task>, task: Task, dep: Id) {
    && task.status !in {Pending, TaskStatus.Blocked, Rejected, Waived, Cancelled}
    && dep in task.dependsOn && dep in byId && byId[dep].status !in {Accepted, Waived}
  }

  lemma RequiresByStatus(status: TaskStatus)
    ensures RequiresSatisfiedDependencies(status) <==>
              status !in {Pending, TaskStatus.Blocked, Rejected, Waived, Cancelled}
  {
    match status
    case Pending =>
    case Ready =>
    case Assigned =>
    case InProgress =>
    case NeedsInfo =>
    case NeedsSupplement =>
    case Blocked =>
    case Accepted =>
    case Rejected =>
    case Waived =>
    case Cancelled =>
  }

  /** The complaints of the status check, status by status: every unready task is reported with exactly the
      dependencies that are not done, and no other is. */
  lemma StatusFaultsAreUnready(tasks: seq<Task>)
    ensures forall t, dep :: t in tasks && Unready(LastById(tasks, TaskId), t, dep) ==>
              StatusFaultIn(tasks, Unresolved(t.id, UnresolvedDependencies(LastById(tasks, TaskId), t.dependsOn)))
    ensures forall x :: StatusFaultIn(tasks, x) ==>
              x.Unresolved? && x.dependencies != [] &&
              exists t :: t in tasks && t.id == x.task &&
                          forall dep :: dep in x.dependencies <==> Unready(LastById(tasks, TaskId), t, dep)
  {
    hide LastById;
    var byId := LastById(tasks, TaskId);
    forall t: Task, dep ensures dep in UnresolvedDependencies(byId, t.dependsOn) <==>
                            dep in t.dependsOn && dep in byId && byId[dep].status !in {Accepted, Waived}
    {
      UnresolvedAre(byId, t.dependsOn, dep);
    }
    forall t, dep | t in tasks && Unready(byId, t, dep)
      ensures StatusFaultIn(tasks, Unresolved(t.id, UnresolvedDependencies(byId, t.dependsOn)))
    {
      assert dep in UnresolvedDependencies(byId, t.dependsOn);
      RequiresByStatus(t.status);
      assert StatusFault(byId, t, Unresolved(t.id, UnresolvedDependencies(byId, t.dependsOn)));
    }
    forall x | StatusFaultIn(tasks, x)
      ensures x.Unresolved? && x.dependencies != []
      ensures exists t :: t in tasks && t.id == x.task && forall dep :: dep in x.dependencies <==> Unready(byId, t, dep)
    {
      var t :| t in tasks && StatusFault(byId, t, x);
    }
  }

  lemma NoStatusFaults(tasks: seq<Task>)
    ensures (forall x :: !StatusFaultIn(tasks, x)) <==> forall t :: t in tasks ==> StatusSound(LastById(tasks, TaskId), t)
  {
    hide StatusFault, StatusSound, LastById;
    forall t | t in tasks && forall x :: !StatusFaultIn(tasks, x) ensures StatusSound(LastById(tasks, TaskId), t) {
      NoStatusFault(LastById(tasks, TaskId), t);
      forall x ensures !StatusFault(LastById(tasks, TaskId), t, x) { assert !StatusFaultIn(tasks, x); }
    }
    forall t, x | t in tasks && StatusSound(LastById(tasks, TaskId), t) ensures !StatusFault(LastById(tasks, TaskId), t, x) {
      NoStatusFault(LastById(tasks, TaskId), t);
    }
  }

  /** There is one complaint for each active or accepted task with unresolved dependencies, and it lists these. */
  method DependencyStatusIssues(tasks: seq<Task>) returns (issues: seq<Issue>)
    ensures forall x :: x in issues <==> StatusFaultIn(tasks, x)
    ensures issues == [] <==> forall t :: t in tasks ==> StatusSound(LastById(tasks, TaskId), t)
  {
    hide StatusSound, RequiresSatisfiedDependencies, UnresolvedDependencies, LastById;
    var byId := LastById(tasks, TaskId);
    issues := [];
    for i := 0 to |tasks|
      invariant forall x :: x in issues <==> exists j :: 0 <= j < i && StatusFault(byId, tasks[j], x)
    {
      var task := tasks[i];
      var unresolved := UnresolvedDependencies(byId, task.dependsOn);
      if unresolved != [] && RequiresSatisfiedDependencies(task.status) {
        issues := issues + [Unresolved(task.id, unresolved)];
      }
    }
    assert forall j :: 0 <= j < |tasks| ==> tasks[j] in tasks;
    assert issues != [] ==> issues[0] in issues;
    NoStatusFaults(tasks);
  }

  // ----- validating a task graph -----

  ghost predicate TaskSound(task: Task) {
    && task.wellFormed
    && NoRepeats(task.dependsOn) && task.id !in task.dependsOn
    && (task.status == Accepted ==> task.evidenceIds != [])
  }

  /** A task graph that the contract accepts. */
  ghost predicate Conformant(graph: TaskGraph) {
    && graph.wellFormed && graph.version > 0 && graph.tasks != []
    && Plannable(graph.tasks)
    && (forall t :: t in graph.tasks ==> TaskSound(t))
    && (forall t :: t in graph.tasks ==> StatusSound(LastById(graph.tasks, TaskId), t))
  }

  /** What is wrong with a task by itself. */
  ghost predicate OwnFault(task: Task, x: Issue) {
    match x
    case Malformed(id) => id == task.id && !task.wellFormed
    case AcceptedWithoutEvidence(id) => id == task.id && task.status == Accepted && task.evidenceIds == []
    case SelfDependency(id) => id == task.id && id in task.dependsOn
    case DuplicateDependency(id, dep) => id == task.id && dep in Repeated(task.dependsOn)
    case _ => false
  }

  ghost predicate OwnFaultIn(tasks: seq<Task>, x: Issue) {
    exists t :: t in tasks && OwnFault(t, x)
  }

  lemma NoOwnFault(task: Task)
    ensures TaskSound(task) <==> forall x :: !OwnFault(task, x)
  {
    RepeatedNone(task.dependsOn);
    if forall x :: !OwnFault(task, x) {
      assert !OwnFault(task, Malformed(task.id));
      assert !OwnFault(task, AcceptedWithoutEvidence(task.id));
      assert !OwnFault(task, SelfDependency(task.id));
      forall dep ensures dep !in Repeated(task.dependsOn) {
        assert !OwnFault(task, DuplicateDependency(task.id, dep));
      }
    }
  }

  lemma NoOwnFaults(tasks: seq<Task>)
    ensures (forall x :: !OwnFaultIn(tasks, x)) <==> forall t :: t in tasks ==> TaskSound(t)
  {
    hide OwnFault, TaskSound;
    forall t | t in tasks && forall x :: !OwnFaultIn(tasks, x) ensures TaskSound(t) {
      NoOwnFault(t);
      forall x ensures !OwnFault(t, x) { assert !OwnFaultIn(tasks, x); }
    }
    forall t, x | t in tasks && TaskSound(t) ensures !OwnFault(t, x) {
      NoOwnFault(t);
    }
  }

  /** What the checks of a task have complained about after these dependencies. */
  ghost predicate FoundSoFar(task: Task, seen: set<Id>, repeated: set<Id>, x: Issue) {
    (x.Malformed? && OwnFault(task, x)) || Fault(seen, task.id, seen, repeated, x)
  }

  lemma FoundNext(task: Task, seen: set<Id>, repeated: set<Id>, dep: Id)
    ensures forall x :: FoundSoFar(task, seen + {dep}, repeated + (if dep in seen then {dep} else {}), x) <==>
                          || FoundSoFar(task, seen, repeated, x)
                          || (dep == task.id && x == SelfDependency(task.id))
                          || (dep in seen && x == DuplicateDependency(task.id, dep))
    ensures dep == task.id ==>
              FoundSoFar(task, seen + {dep}, repeated + (if dep in seen then {dep} else {}), SelfDependency(task.id))
    ensures dep in seen ==> FoundSoFar(task, seen + {dep}, repeated + {dep}, DuplicateDependency(task.id, dep))
  {
    var more := repeated + (if dep in seen then {dep} else {});
    forall x
      ensures FoundSoFar(task, seen + {dep}, more, x) <==>
                || FoundSoFar(task, seen, repeated, x)
                || (dep == task.id && x == SelfDependency(task.id))
                || (dep in seen && x == DuplicateDependency(task.id, dep))
    {
      match x
      case SelfDependency(t) =>
      case DuplicateDependency(t, d) =>
      case _ =>
    }
  }

  lemma FoundAll(task: Task)
    ensures forall x :: OwnFault(task, x) <==>
                          || FoundSoFar(task, Elements(task.dependsOn), Repeated(task.dependsOn), x)
                          || (x.AcceptedWithoutEvidence? && OwnFault(task, x))
    ensures forall x :: FoundSoFar(task, {}, {}, x) <==> x == Malformed(task.id) && !task.wellFormed
  {
  }

  method TaskIssues(task: Task) returns (issues: seq<Issue>)
    ensures forall x :: x in issues <==> OwnFault(task, x)
  {
    hide FoundSoFar, Elements, Repeated;
    issues := [];
    if !task.wellFormed {
      issues := issues + [Malformed(task.id)];
    }
    var seen := {};
    ghost var repeated: set<Id> := {};
    ElementsAll(task.dependsOn);
    RepeatedNone(task.dependsOn);
    FoundAll(task);
    for i := 0 to |task.dependsOn|
      invariant seen == Elements(task.dependsOn[..i]) && repeated == Repeated(task.dependsOn[..i])
      invariant forall x :: x in issues <==> FoundSoFar(task, seen, repeated, x)
    {
      var dep := task.dependsOn[i];
      ElementsNext(task.dependsOn, i);
      RepeatedNext(task.dependsOn, i);
      FoundNext(task, seen, repeated, dep);
      if dep == task.id {
        issues := issues + [SelfDependency(task.id)];
      }
      if dep in seen {
        issues := issues + [DuplicateDependency(task.id, dep)];
      }
      repeated := repeated + (if dep in seen then {dep} else {});
      seen := seen + {dep};
    }
    if task.status == Accepted && task.evidenceIds == [] {
      issues := issues + [AcceptedWithoutEvidence(task.id)];
    }
  }

  ghost predicate UnknownIn(ids: set<Id>, task: Task, x: Issue) {
    x.UnknownDependency? && x.task == task.id && x.dependency in task.dependsOn && x.dependency !in ids
  }

  method UnknownDependencyIssues(tasks: seq<Task>, ids: set<Id>) returns (issues: seq<Issue>)
    ensures forall x :: x in issues <==> exists t :: t in tasks && UnknownIn(ids, t, x)
  {
    issues := [];
    for i := 0 to |tasks|
      invariant forall x :: x in issues <==> exists m :: 0 <= m < i && UnknownIn(ids, tasks[m], x)
    {
      var deps := tasks[i].dependsOn;
      ghost var before := issues;
      for j := 0 to |deps|
        invariant forall x :: x in issues <==> x in before || (UnknownIn(ids, tasks[i], x) && x.dependency in deps[..j])
      {
        assert deps[..j + 1] == deps[..j] + [deps[j]];
        if deps[j] !in ids {
          issues := issues + [UnknownDependency(tasks[i].id, deps[j])];
        }
      }
      assert deps[..|deps|] == deps;
    }
    assert forall m :: 0 <= m < |tasks| ==> tasks[m] in tasks;
  }

  /** Everything that can be wrong with a task graph. */
  ghost predicate GraphFault(graph: TaskGraph, x: Issue) {
    || HeaderFault(graph, x)
    || (x.DuplicateTask? && DuplicatedId(graph.tasks, x.task))
    || OwnFaultIn(graph.tasks, x)
    || (exists t :: t in graph.tasks && UnknownIn(TaskIds(graph.tasks), t, x))
    || CycleFault(graph, x)
    || StatusFaultIn(graph.tasks, x)
  }

  ghost predicate HeaderFault(graph: TaskGraph, x: Issue) {
    match x
    case Malformed(id) => id == graph.id && !graph.wellFormed
    case BadVersion => graph.version == 0
    case NoTasks => graph.tasks == []
    case _ => false
  }

  ghost predicate CycleFault(graph: TaskGraph, x: Issue) {
    x.CycleFound? && LoopTrail(DepsOf(graph.tasks), x.trail)
  }

  /** What the first loop of the validation has complained about after `n` tasks. */
  ghost predicate FoundUpTo(graph: TaskGraph, n: nat, x: Issue)
    requires n <= |graph.tasks|
  {
    || HeaderFault(graph, x)
    || (x.DuplicateTask? && DuplicatedId(graph.tasks[..n], x.task))
    || exists j :: 0 <= j < n && OwnFault(graph.tasks[j], x)
  }

  lemma FirstFound(graph: TaskGraph)
    ensures forall x :: FoundUpTo(graph, 0, x) <==> HeaderFault(graph, x)
    ensures forall x :: FoundUpTo(graph, |graph.tasks|, x) <==>
                          || HeaderFault(graph, x)
                          || (x.DuplicateTask? && DuplicatedId(graph.tasks, x.task))
                          || OwnFaultIn(graph.tasks, x)
    ensures TaskIds(graph.tasks[..0]) == {} && graph.tasks[..|graph.tasks|] == graph.tasks
  {
    hide HeaderFault, OwnFault;
    assert graph.tasks[..|graph.tasks|] == graph.tasks;
    assert forall j :: 0 <= j < |graph.tasks| ==> graph.tasks[j] in graph.tasks;
  }

  lemma OneMoreFound(graph: TaskGraph, i: nat)
    requires i < |graph.tasks|
    ensures var task := graph.tasks[i];
            && TaskIds(graph.tasks[..i + 1]) == TaskIds(graph.tasks[..i]) + {task.id}
            && forall x :: FoundUpTo(graph, i + 1, x) <==>
                             || FoundUpTo(graph, i, x)
                             || OwnFault(task, x)
                             || (task.id in TaskIds(graph.tasks[..i]) && x == DuplicateTask(task.id))
    ensures graph.tasks[i].id in TaskIds(graph.tasks[..i]) ==> FoundUpTo(graph, i + 1, DuplicateTask(graph.tasks[i].id))
  {
    hide HeaderFault, OwnFault, DuplicatedId, TaskIds;
    IdsAfter(graph.tasks, i);
    forall id ensures DuplicatedId(graph.tasks[..i + 1], id) <==>
                        DuplicatedId(graph.tasks[..i], id) || (id == graph.tasks[i].id && id in TaskIds(graph.tasks[..i]))
    {
      DuplicatedNext(graph.tasks, i, id);
    }
  }

  lemma IdsAfter(tasks: seq<Task>, i: nat)
    requires i < |tasks|
    ensures TaskIds(tasks[..i + 1]) == TaskIds(tasks[..i]) + {tasks[i].id}
  {
    IdsNext(tasks, TaskId, i);
  }

  /** Validation complains about exactly what is wrong; of the cycles, about at least one if there is any. So it
      finds nothing exactly in the graphs that conform. */
  method ValidateTaskGraph(graph: TaskGraph) returns (issues: seq<Issue>)
    ensures forall x :: x in issues ==> GraphFault(graph, x)
    ensures forall x :: GraphFault(graph, x) && !x.CycleFound? ==> x in issues
    ensures (exists x :: x in issues && x.CycleFound?) <==> !Acyclic(DepsOf(graph.tasks))
    ensures issues == [] <==> Conformant(graph)
    ensures forall t, dep :: t in graph.tasks && Unready(LastById(graph.tasks, TaskId), t, dep) ==>
              exists x :: x in issues && x.Unresolved? && x.task == t.id && dep in x.dependencies
    ensures forall x :: x in issues && x.Unresolved? ==>
              exists t :: t in graph.tasks && t.id == x.task &&
                          forall dep :: dep in x.dependencies <==> Unready(LastById(graph.tasks, TaskId), t, dep)
  {
    hide FoundUpTo, OwnFault, OwnFaultIn, StatusFaultIn, UnknownIn, StatusSound, TaskIds, DepsOf, Acyclic, DuplicatedId, LoopTrail;
    hide Conformant, GraphFault, Unready;
    issues := [];
    if !graph.wellFormed {
      issues := issues + [Malformed(graph.id)];
    }
    if graph.version == 0 {
      issues := issues + [BadVersion];
    }
    if graph.tasks == [] {
      issues := issues + [NoTasks];
    }
    var tasks := graph.tasks;
    var ids := {};
    FirstFound(graph);
    for i := 0 to |tasks|
      invariant ids == TaskIds(tasks[..i])
      invariant forall x :: x in issues <==> FoundUpTo(graph, i, x)
    {
      var task := tasks[i];
      OneMoreFound(graph, i);
      var own := TaskIssues(task);
      issues := issues + own;
      if task.id in ids {
        issues := issues + [DuplicateTask(task.id)];
      }
      ids := ids + {task.id};
    }
    var unknown := UnknownDependencyIssues(tasks, ids);
    var cycles := DependencyCycleIssues(tasks);
    var statuses := DependencyStatusIssues(tasks);
    AllFound(graph, issues, unknown, cycles, statuses);
    issues := issues + unknown + cycles + statuses;
    UnreadyInGraph(graph, issues);
  }

  lemma AllFound(graph: TaskGraph, first: seq<Issue>, unknown: seq<Issue>, cycles: seq<Issue>, statuses: seq<Issue>)
    requires forall x :: x in first <==> FoundUpTo(graph, |graph.tasks|, x)
    requires forall x :: x in unknown <==> exists t :: t in graph.tasks && UnknownIn(TaskIds(graph.tasks), t, x)
    requires forall x :: x in cycles ==> CycleFault(graph, x)
    requires cycles == [] <==> Acyclic(DepsOf(graph.tasks))
    requires forall x :: x in statuses <==> StatusFaultIn(graph.tasks, x)
    ensures var issues := first + unknown + cycles + statuses;
            && (forall x :: x in issues ==> GraphFault(graph, x))
            && (forall x :: GraphFault(graph, x) && !x.CycleFound? ==> x in issues)
            && ((exists x :: x in issues && x.CycleFound?) <==> !Acyclic(DepsOf(graph.tasks)))
            && (issues == [] <==> Conformant(graph))
  {
    hide FoundUpTo, OwnFault, OwnFaultIn, StatusFaultIn, UnknownIn, TaskIds, DepsOf, Acyclic, DuplicatedId, LoopTrail, Conformant;
    var issues := first + unknown + cycles + statuses;
    FirstFound(graph);
    NoCycleElsewhere(graph);
    ConformsWithoutFault(graph);
    assert cycles != [] ==> cycles[0] in cycles && cycles[0] in issues;
    if x :| x in issues && x.CycleFound? {
      LoopTrailIsCycle(DepsOf(graph.tasks), x.trail);
    }
    assert issues != [] ==> issues[0] in issues;
  }

  lemma UnreadyInGraph(graph: TaskGraph, issues: seq<Issue>)
    requires forall x :: x in issues ==> GraphFault(graph, x)
    requires forall x :: GraphFault(graph, x) && !x.CycleFound? ==> x in issues
    ensures forall t, dep :: t in graph.tasks && Unready(LastById(graph.tasks, TaskId), t, dep) ==>
              exists x :: x in issues && x.Unresolved? && x.task == t.id && dep in x.dependencies
    ensures forall x :: x in issues && x.Unresolved? ==>
              exists t :: t in graph.tasks && t.id == x.task &&
                          forall dep :: dep in x.dependencies <==> Unready(LastById(graph.tasks, TaskId), t, dep)
  {
    hide LastById, StatusFaultIn, DuplicatedId, LoopTrail;
    var byId := LastById(graph.tasks, TaskId);
    StatusFaultsAreUnready(graph.tasks);
    forall t, dep | t in graph.tasks && Unready(byId, t, dep)
      ensures exists x :: x in issues && x.Unresolved? && x.task == t.id && dep in x.dependencies
    {
      var x := Unresolved(t.id, UnresolvedDependencies(byId, t.dependsOn));
      assert GraphFault(graph, x);
      UnresolvedAre(byId, t.dependsOn, dep);
    }
    forall x | x in issues && x.Unresolved? ensures StatusFaultIn(graph.tasks, x) {
      assert GraphFault(graph, x);
    }
  }

  lemma NoCycleElsewhere(graph: TaskGraph)
    ensures forall x: Issue :: x.CycleFound? && GraphFault(graph, x) ==> CycleFault(graph, x)
  {
  }

  /** A graph conforms exactly when nothing but cycles could be complained about, and there is none. */
  lemma ConformsWithoutFault(graph: TaskGraph)
    ensures Conformant(graph) <==>
              Acyclic(DepsOf(graph.tasks)) && forall x :: GraphFault(graph, x) ==> x.CycleFound?
  {
    hide OwnFault, OwnFaultIn, UnknownIn, StatusFault, StatusFaultIn, StatusSound, TaskSound, DepsOf, Acyclic, TaskIds,
      HeaderFault, LoopTrail, Structured, DuplicatedId;
    NoHeaderFault(graph);
    NoCycleElsewhere(graph);
    SoundWithoutFaults(graph.tasks);
    OnlyCycleFaults(graph);
  }

  ghost predicate NoTaskFault(tasks: seq<Task>) {
    && (forall id :: !DuplicatedId(tasks, id))
    && (forall x :: !OwnFaultIn(tasks, x))
    && (forall t, x :: t in tasks ==> !UnknownIn(TaskIds(tasks), t, x))
    && (forall x :: !StatusFaultIn(tasks, x))
  }

  lemma OnlyCycleFaults(graph: TaskGraph)
    ensures (forall x :: GraphFault(graph, x) ==> x.CycleFound?) <==>
              (forall x :: !HeaderFault(graph, x)) && NoTaskFault(graph.tasks)
  {
    hide DuplicatedId, TaskIds, LoopTrail, DepsOf;
    if forall x :: GraphFault(graph, x) ==> x.CycleFound? {
      forall x ensures !HeaderFault(graph, x) { assert !x.CycleFound? ==> !GraphFault(graph, x); }
      forall id ensures !DuplicatedId(graph.tasks, id) { assert !GraphFault(graph, DuplicateTask(id)); }
      forall x ensures !OwnFaultIn(graph.tasks, x) { assert !x.CycleFound? ==> !GraphFault(graph, x); }
      forall x ensures !StatusFaultIn(graph.tasks, x) { assert !x.CycleFound? ==> !GraphFault(graph, x); }
      forall t, x | t in graph.tasks ensures !UnknownIn(TaskIds(graph.tasks), t, x) {
        assert !x.CycleFound? ==> !GraphFault(graph, x);
      }
    }
  }

  lemma SoundWithoutFaults(tasks: seq<Task>)
    ensures NoTaskFault(tasks) <==>
              && Structured(tasks)
              && (forall t :: t in tasks ==> TaskSound(t))
              && (forall t :: t in tasks ==> StatusSound(LastById(tasks, TaskId), t))
  {
    hide OwnFault, UnknownIn, StatusFault, StatusSound, TaskSound, TaskStructured, TaskIds, DuplicatedId, DistinctIds, LastById;
    DistinctWithoutDuplicates(tasks);
    NoOwnFaults(tasks);
    NoStatusFaults(tasks);
    forall t | t in tasks && TaskSound(t)
      ensures TaskStructured(TaskIds(tasks), t) <==> forall x :: !UnknownIn(TaskIds(tasks), t, x)
    {
      NoUnknownFault(TaskIds(tasks), t);
    }
  }

  lemma NoUnknownFault(ids: set<Id>, task: Task)
    requires TaskSound(task)
    ensures TaskStructured(ids, task) <==> forall x :: !UnknownIn(ids, task, x)
  {
    if forall x :: !UnknownIn(ids, task, x) {
      forall dep | dep in task.dependsOn ensures dep in ids {
        assert !UnknownIn(ids, task, UnknownDependency(task.id, dep));
      }
    }
  }

  lemma NoHeaderFault(graph: TaskGraph)
    ensures graph.wellFormed && graph.version > 0 && graph.tasks != [] <==> forall x :: !HeaderFault(graph, x)
  {
    assert HeaderFault(graph, Malformed(graph.id)) <==> !graph.wellFormed;
    assert HeaderFault(graph, BadVersion) <==> graph.version == 0;
    assert HeaderFault(graph, NoTasks) <==> graph.tasks == [];
  }

  // ----- what validation guarantees about statuses -----

  function StatusOf(tasks: seq<Task>, id: Id): TaskStatus
    requires id in LastById(tasks, TaskId)
  {
    LastById(tasks, TaskId)[id].status
  }

  /** Along every dependency path from an active or accepted task of a validated graph, the tasks after the
      first are accepted up to the first waived one: an unresolved task is only reachable past a waived one. */
  lemma {:induction false} AcceptedUntilWaived(graph: TaskGraph, p: seq<Id>, i: nat)
    requires Conformant(graph)
    requires IsWalk(DepsOf(graph.tasks), p)
    requires RequiresSatisfiedDependencies(StatusOf(graph.tasks, p[0]))
    requires 1 <= i < |p|
    ensures StatusOf(graph.tasks, p[i]) == Accepted ||
            exists j :: 1 <= j <= i && StatusOf(graph.tasks, p[j]) == Waived
  {
    var byId := LastById(graph.tasks, TaskId);
    if i > 1 {
      AcceptedUntilWaived(graph, p, i - 1);
    }
    if i == 1 || StatusOf(graph.tasks, p[i - 1]) == Accepted {
      LastByIdFound(graph.tasks, TaskId, p[i - 1]);
      var k :| LastAt(graph.tasks, TaskId, p[i - 1], k) && graph.tasks[k] == byId[p[i - 1]];
      assert StatusSound(byId, graph.tasks[k]);
      assert p[i] in DepsOf(graph.tasks)[p[i - 1]].needs;
    }
  }
}
