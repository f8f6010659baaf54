/** The dependency relation of a task list as a mathematical graph. */
module Dependency {
  import opened Records

  datatype Node = Node(needs: set<Id>)

  /** Each known task with the ids it depends on; some of these may be unknown. */
  type Deps = map<Id, Node>

  function Edges(byId: map<Id, Task>): (d: Deps) {
    map t | t in byId :: Node(Elements(byId[t].dependsOn))
  }

  function DepsOf(tasks: seq<Task>): Deps {
    Edges(LastById(tasks, TaskId))
  }

  /** Every dependency is itself a task. */
  ghost predicate Closed(d: Deps) {
    forall t :: t in d ==> d[t].needs <= d.Keys
  }

  /** A dependency walk: known tasks, each a dependency of the one before it. */
  ghost predicate IsWalk(d: Deps, p: seq<Id>) {
    && p != []
    && (forall i :: 0 <= i < |p| ==> p[i] in d)
    && (forall i :: 0 < i < |p| ==> p[i] in d[p[i - 1]].needs)
  }

  ghost predicate ClosedWalk(d: Deps, p: seq<Id>) {
    |p| >= 2 && IsWalk(d, p) && p[0] == p[|p| - 1]
  }

  ghost predicate Acyclic(d: Deps) {
    forall p :: !ClosedWalk(d, p)
  }

  /** A walk from `a` that takes at least one step ends in `b`: `a` needs `b` done first. */
  ghost predicate Needs(d: Deps, a: Id, b: Id) {
    exists p :: |p| >= 2 && IsWalk(d, p) && p[0] == a && p[|p| - 1] == b
  }

  /** Each known dependency of a listed task is listed earlier. */
  ghost predicate DependenciesFirst(d: Deps, order: seq<Id>) {
    forall i :: 0 <= i < |order| ==>
      order[i] in d && forall x :: x in d[order[i]].needs && x in d ==> x in order[..i]
  }

  lemma TailWalk(d: Deps, p: seq<Id>)
    requires IsWalk(d, p) && |p| >= 2
    ensures IsWalk(d, p[1..]) && p[1..][0] == p[1] && p[1..][|p[1..]| - 1] == p[|p| - 1]
  {
    forall i | 0 < i < |p[1..]| ensures p[1..][i] in d[p[1..][i - 1]].needs {
      assert p[i + 1] in d[p[i]].needs;
    }
  }

  lemma NextIsEarlier(d: Deps, order: seq<Id>, p: seq<Id>, i: nat) returns (k: nat)
    requires DependenciesFirst(d, order)
    requires IsWalk(d, p) && |p| >= 2
    requires i < |order| && order[i] == p[0]
    ensures k < i && order[k] == p[1]
  {
    assert p[1] in d[p[0]].needs;
    assert p[1] in order[..i];
    k :| 0 <= k < i && order[k] == p[1];
  }

  /** Following a walk moves strictly towards the front of such a list. */
  lemma {:induction false} WalkDescends(d: Deps, order: seq<Id>, p: seq<Id>, i: nat) returns (k: nat)
    requires DependenciesFirst(d, order)
    requires IsWalk(d, p) && |p| >= 2
    requires i < |order| && order[i] == p[0]
    ensures k < i && order[k] == p[|p| - 1]
    decreases |p|
  {
    hide IsWalk, DependenciesFirst;
    k := NextIsEarlier(d, order, p, i);
    if |p| > 2 {
      TailWalk(d, p);
      k := WalkDescends(d, order, p[1..], k);
    }
  }

  lemma {:induction false} NoClosedWalkFrom(d: Deps, order: seq<Id>, p: seq<Id>, i: nat)
    requires DependenciesFirst(d, order)
    requires p != [] && i < |order| && order[i] == p[0]
    ensures !ClosedWalk(d, p)
    decreases i
  {
    if ClosedWalk(d, p) {
      var k := WalkDescends(d, order, p, i);
      NoClosedWalkFrom(d, order, p, k);
    }
  }

  /** A complete dependencies-first list rules out cycles. */
  lemma OrderedIsAcyclic(d: Deps, order: seq<Id>)
    requires DependenciesFirst(d, order)
    requires d.Keys <= Elements(order)
    ensures Acyclic(d)
  {
    forall p ensures !ClosedWalk(d, p) {
      if ClosedWalk(d, p) {
        assert p[0] in Elements(order);
        var i :| 0 <= i < |order| && order[i] == p[0];
        NoClosedWalkFrom(d, order, p, i);
      }
    }
  }

  /** What a cycle report must show: a dependency walk that comes back to an id it already visited. */
  ghost predicate LoopTrail(d: Deps, t: seq<Id>) {
    |t| >= 2 && IsWalk(d, t) && t[|t| - 1] in t[..|t| - 1]
  }

  lemma LoopTrailIsCycle(d: Deps, t: seq<Id>)
    requires LoopTrail(d, t)
    ensures !Acyclic(d)
  {
    var i :| 0 <= i < |t| - 1 && t[i] == t[|t| - 1];
    assert ClosedWalk(d, t[i..]);
  }

  /** If every member of a non-empty set depends on a member of the set, the graph has a cycle. */
  lemma StuckSetHasCycle(d: Deps, stuck: set<Id>)
    requires stuck != {} && stuck <= d.Keys
    requires forall t :: t in stuck ==> d[t].needs * stuck != {}
    ensures !Acyclic(d)
  {
    var p := StuckWalk(d, stuck, |stuck|);
    var i, j := Pigeonhole(p, stuck);
    assert ClosedWalk(d, p[i..j + 1]);
  }

  lemma {:induction false} StuckWalk(d: Deps, stuck: set<Id>, n: nat) returns (p: seq<Id>)
    requires stuck != {} && stuck <= d.Keys
    requires forall t :: t in stuck ==> d[t].needs * stuck != {}
    ensures IsWalk(d, p) && |p| == n + 1 && forall x :: x in p ==> x in stuck
  {
    if n == 0 {
      var t :| t in stuck;
      p := [t];
    } else {
      p := StuckWalk(d, stuck, n - 1);
      var last := p[|p| - 1];
      var next :| next in d[last].needs * stuck;
      p := p + [next];
    }
  }
}
