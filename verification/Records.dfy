/** The contract records that the task graph planner, the bridge and the fixture validators read. */
module Records {

  /** An id, compared and ordered by its text. */
  datatype Id = Id(text: string)

  datatype Option<+T> = None | Some(value: T)

  datatype Result<+T, +E> = Ok(value: T) | Err(error: E)

  datatype TaskStatus =
    | Pending | Ready | Assigned | InProgress | NeedsInfo | NeedsSupplement
    | Blocked | Accepted | Rejected | Waived | Cancelled

  datatype ActorType = PmAgent | WorkerAgent | HumanTwinAgent | Human | ExternalSystem

  /** `wellFormed` stands for the character-level checks of the record's own fields
      (id pattern, non-empty texts, timestamps). */
  datatype Task = Task(
    id: Id,
    title: string,
    status: TaskStatus,
    owner: ActorType,
    dependsOn: seq<Id>,
    requiredEvidence: seq<string>,
    gapIds: seq<Id>,
    evidenceIds: seq<Id>,
    mirrorIds: seq<Id>,
    wellFormed: bool)

  /** `opportunityId` is the string stored under "opportunity_id" in the business references, if any. */
  datatype TaskGraph = TaskGraph(
    id: Id,
    version: nat,
    opportunityId: Option<Id>,
    tasks: seq<Task>,
    wellFormed: bool)

  datatype Issue =
    | Malformed(owner: Id)
    | BadVersion
    | NoTasks
    | DuplicateTask(task: Id)
    | SelfDependency(task: Id)
    | DuplicateDependency(task: Id, dependency: Id)
    | UnknownDependency(task: Id, dependency: Id)
    | AcceptedWithoutEvidence(task: Id)
    | CycleFound(trail: seq<Id>)
    | Unresolved(task: Id, dependencies: seq<Id>)
    | PlanTooShort

  function TaskId(task: Task): Id { task.id }

  /** Collecting (key, value) pairs into a hash map: the last value of a key wins. */
  function LastById<T>(xs: seq<T>, key: T -> Id): map<Id, T> {
    if xs == [] then map[]
    else LastById(xs[..|xs| - 1], key)[key(xs[|xs| - 1]) := xs[|xs| - 1]]
  }

  ghost predicate LastAt<T>(xs: seq<T>, key: T -> Id, id: Id, i: int) {
    0 <= i < |xs| && key(xs[i]) == id && forall j :: i < j < |xs| ==> key(xs[j]) != id
  }

  lemma {:induction false} LastByIdFound<T>(xs: seq<T>, key: T -> Id, id: Id)
    ensures id in LastById(xs, key) <==> exists i :: 0 <= i < |xs| && key(xs[i]) == id
    ensures id in LastById(xs, key) ==> exists i :: LastAt(xs, key, id, i) && xs[i] == LastById(xs, key)[id]
  {
    if xs != [] {
      var n := |xs| - 1;
      LastByIdFound(xs[..n], key, id);
      if key(xs[n]) == id {
        assert LastAt(xs, key, id, n);
      } else if id in LastById(xs[..n], key) {
        var i :| LastAt(xs[..n], key, id, i) && xs[..n][i] == LastById(xs[..n], key)[id];
        assert LastAt(xs, key, id, i);
      }
    }
  }

  /** The first value with a key. */
  function FirstById<T>(xs: seq<T>, key: T -> Id, id: Id): (r: Option<T>)
    ensures r.None? ==> forall i :: 0 <= i < |xs| ==> key(xs[i]) != id
    ensures r.Some? ==> exists i :: 0 <= i < |xs| && xs[i] == r.value && key(xs[i]) == id &&
                                    forall j :: 0 <= j < i ==> key(xs[j]) != id
  {
    if xs == [] then None
    else if key(xs[0]) == id then Some(xs[0])
    else FirstById(xs[1..], key, id)
  }

  ghost predicate DistinctIds<T>(xs: seq<T>, key: T -> Id) {
    forall i, j :: 0 <= i < j < |xs| ==> key(xs[i]) != key(xs[j])
  }

  function Ids<T(==)>(xs: seq<T>, key: T -> Id): set<Id> {
    set x | x in xs :: key(x)
  }

  lemma IdsNext<T>(xs: seq<T>, key: T -> Id, i: nat)
    requires i < |xs|
    ensures Ids(xs[..i + 1], key) == Ids(xs[..i], key) + {key(xs[i])}
    ensures DistinctIds(xs[..i + 1], key) <==> DistinctIds(xs[..i], key) && key(xs[i]) !in Ids(xs[..i], key)
  {
    var more := xs[..i + 1];
    assert more == xs[..i] + [xs[i]];
    if DistinctIds(more, key) {
      forall a, b | 0 <= a < b < i ensures key(xs[..i][a]) != key(xs[..i][b]) {
        assert key(more[a]) != key(more[b]);
      }
      forall x | x in xs[..i] ensures key(x) != key(xs[i]) {
        var a :| 0 <= a < i && xs[..i][a] == x;
        assert key(more[a]) != key(more[i]);
      }
    }
    if DistinctIds(xs[..i], key) && key(xs[i]) !in Ids(xs[..i], key) {
      forall a, b | 0 <= a < b < |more| ensures key(more[a]) != key(more[b]) {
        if b < i {
          assert key(xs[..i][a]) != key(xs[..i][b]);
        } else {
          assert xs[..i][a] in xs[..i];
        }
      }
    }
  }

  lemma IdsAll<T>(xs: seq<T>, key: T -> Id)
    ensures xs[..|xs|] == xs && Ids(xs[..0], key) == {} && DistinctIds(xs[..0], key)
    ensures LastById(xs, key).Keys == Ids(xs, key)
  {
    assert xs[..|xs|] == xs;
    forall id ensures id in LastById(xs, key) <==> id in Ids(xs, key) {
      LastByIdFound(xs, key, id);
      if id in Ids(xs, key) {
        var x :| x in xs && key(x) == id;
        var i :| 0 <= i < |xs| && xs[i] == x;
      }
    }
  }

  lemma {:induction false} CountIds<T>(xs: seq<T>, key: T -> Id)
    requires DistinctIds(xs, key)
    ensures |Ids(xs, key)| == |xs|
  {
    if xs != [] {
      var n := |xs| - 1;
      assert xs[..n + 1] == xs;
      IdsNext(xs, key, n);
      CountIds(xs[..n], key);
    }
  }

  lemma LastByIdNext<T>(xs: seq<T>, key: T -> Id, i: nat)
    requires i < |xs|
    ensures LastById(xs[..i + 1], key) == LastById(xs[..i], key)[key(xs[i]) := xs[i]]
  {
    assert xs[..i + 1][..i] == xs[..i];
  }

  lemma OnlyWithId<T>(xs: seq<T>, key: T -> Id, x: T)
    requires DistinctIds(xs, key) && x in xs
    ensures key(x) in LastById(xs, key) && LastById(xs, key)[key(x)] == x
  {
    LastByIdFound(xs, key, key(x));
    var j :| 0 <= j < |xs| && xs[j] == x;
    var i :| LastAt(xs, key, key(x), i) && xs[i] == LastById(xs, key)[key(x)];
  }

  /** Without repeated ids the last-wins map and the first-match search return the same record. */
  lemma LastIsFirst<T>(xs: seq<T>, key: T -> Id, id: Id)
    requires DistinctIds(xs, key)
    ensures FirstById(xs, key, id) == if id in LastById(xs, key) then Some(LastById(xs, key)[id]) else None
  {
    LastByIdFound(xs, key, id);
    if id in LastById(xs, key) {
      var i :| LastAt(xs, key, id, i) && xs[i] == LastById(xs, key)[id];
    }
  }

  predicate NoRepeats<T(==)>(xs: seq<T>) {
    forall i, j :: 0 <= i < j < |xs| ==> xs[i] != xs[j]
  }

  lemma {:induction false} OccursOnce<T>(xs: seq<T>, x: T)
    requires NoRepeats(xs)
    ensures multiset(xs)[x] <= 1
  {
    if xs != [] {
      assert xs == [xs[0]] + xs[1..];
      OccursOnce(xs[1..], x);
      if x == xs[0] {
        assert x !in xs[1..];
        assert x !in multiset(xs[1..]);
      }
    }
  }

  lemma OccursTwice<T>(xs: seq<T>, i: nat)
    requires i < |xs| && xs[i] in xs[..i]
    ensures multiset(xs)[xs[i]] >= 2
  {
    assert xs == xs[..i] + [xs[i]] + xs[i + 1..];
    assert multiset(xs) == multiset(xs[..i]) + multiset{xs[i]} + multiset(xs[i + 1..]);
    assert xs[i] in multiset(xs[..i]);
  }

  lemma DistinctNoRepeats<T>(xs: seq<T>, key: T -> Id)
    requires DistinctIds(xs, key)
    ensures NoRepeats(xs)
  {
    forall i, j | 0 <= i < j < |xs| ensures xs[i] != xs[j] {
      assert key(xs[i]) != key(xs[j]);
    }
  }

  /** Positions in increasing order. */
  ghost predicate Increasing(at: seq<nat>) {
    forall m, n :: 0 <= m < n < |at| ==> at[m] < at[n]
  }

  function Moved(at: seq<nat>): (r: seq<nat>)
    ensures |r| == |at| && forall n :: 0 <= n < |at| ==> r[n] == at[n] + 1
  {
    seq(|at|, n requires 0 <= n < |at| => at[n] + 1)
  }

  /** Positions in the rest of a list as positions in the list, perhaps with its first. */
  function Shifted(at: seq<nat>, first: bool): seq<nat> {
    if first then [0] + Moved(at) else Moved(at)
  }

  lemma ShiftedPositions(at: seq<nat>, first: bool, i: nat)
    ensures i in Shifted(at, first) <==> if i == 0 then first else i - 1 in at
  {
    if i > 0 && i - 1 in at {
      var n :| 0 <= n < |at| && at[n] == i - 1;
      assert Moved(at)[n] == i;
    }
    assert i in Shifted(at, first) <==> (first && i == 0) || i in Moved(at);
  }

  ghost predicate ElementsAt<T>(xs: seq<T>, at: seq<nat>, ys: seq<T>) {
    |at| == |ys| && forall n :: 0 <= n < |at| ==> at[n] < |xs| && ys[n] == xs[at[n]]
  }

  ghost predicate Marked(keep: seq<bool>, at: seq<nat>) {
    forall i: nat :: i in at <==> i < |keep| && keep[i]
  }

  /** `ys` are the elements of `xs` at the positions `at`, which are, in order, those that `keep` marks. */
  ghost predicate Picked<T>(xs: seq<T>, keep: seq<bool>, at: seq<nat>, ys: seq<T>) {
    |keep| == |xs| && Increasing(at) && ElementsAt(xs, at, ys) && Marked(keep, at)
  }

  lemma ElementsNextAt<T>(xs: seq<T>, at: seq<nat>, ys: seq<T>, first: bool)
    requires xs != [] && ElementsAt(xs[1..], at, ys)
    ensures ElementsAt(xs, Shifted(at, first), (if first then [xs[0]] else []) + ys)
  {
    var later, more := Shifted(at, first), (if first then [xs[0]] else []) + ys;
    forall n | 0 <= n < |later| ensures later[n] < |xs| && more[n] == xs[later[n]] {
      ShiftedAt(at, first, n);
    }
  }

  lemma MarkedNext(keep: seq<bool>, at: seq<nat>)
    requires keep != [] && Marked(keep[1..], at)
    ensures Marked(keep, Shifted(at, keep[0]))
  {
    hide Shifted;
    forall i: nat ensures i in Shifted(at, keep[0]) <==> i < |keep| && keep[i] {
      ShiftedPositions(at, keep[0], i);
    }
  }

  /** Picking from a list with one more element in front. */
  lemma PickedNext<T>(xs: seq<T>, keep: seq<bool>, at: seq<nat>, ys: seq<T>)
    requires xs != [] && keep != [] && Picked(xs[1..], keep[1..], at, ys)
    ensures Picked(xs, keep, Shifted(at, keep[0]), (if keep[0] then [xs[0]] else []) + ys)
  {
    hide Increasing, ElementsAt, Marked, Shifted;
    ShiftedIncreasing(at, keep[0]);
    ElementsNextAt(xs, at, ys, keep[0]);
    MarkedNext(keep, at);
  }

  lemma ShiftedAt(at: seq<nat>, first: bool, n: nat)
    requires n < |Shifted(at, first)|
    ensures Shifted(at, first)[n] ==
              if !first then at[n] + 1 else if n == 0 then 0 else at[n - 1] + 1
  {
  }

  lemma ShiftedIncreasing(at: seq<nat>, first: bool)
    requires Increasing(at)
    ensures Increasing(Shifted(at, first))
    ensures |Shifted(at, first)| == |at| + (if first then 1 else 0)
  {
    var later := Shifted(at, first);
    forall m, n | 0 <= m < n < |later| ensures later[m] < later[n] {
      ShiftedAt(at, first, m);
      ShiftedAt(at, first, n);
    }
  }

  function Elements<T(==)>(xs: seq<T>): (s: set<T>) {
    set x | x in xs
  }

  lemma ElementsAll<T>(xs: seq<T>)
    ensures xs[..|xs|] == xs && Elements(xs[..0]) == {}
  {
  }

  lemma ElementsNext<T>(xs: seq<T>, i: nat)
    requires i < |xs|
    ensures Elements(xs[..i + 1]) == Elements(xs[..i]) + {xs[i]}
    ensures xs[i] in Elements(xs)
    ensures NoRepeats(xs) ==> xs[i] !in Elements(xs[..i])
    ensures NoRepeats(xs[..i + 1]) <==> NoRepeats(xs[..i]) && xs[i] !in Elements(xs[..i])
  {
    var more := xs[..i + 1];
    assert more == xs[..i] + [xs[i]];
    if NoRepeats(more) {
      forall a, b | 0 <= a < b < i ensures xs[..i][a] != xs[..i][b] {
        assert more[a] != more[b];
      }
      forall a | 0 <= a < i ensures xs[..i][a] != xs[i] {
        assert more[a] != more[i];
      }
    }
  }

  /** The elements that occur more than once. */
  ghost function Repeated<T>(xs: seq<T>): set<T> {
    set x | x in xs && multiset(xs)[x] >= 2
  }

  lemma RepeatedNext<T>(xs: seq<T>, i: nat)
    requires i < |xs|
    ensures Repeated(xs[..i + 1]) == Repeated(xs[..i]) + (if xs[i] in Elements(xs[..i]) then {xs[i]} else {})
  {
    assert xs[..i + 1] == xs[..i] + [xs[i]];
    forall x ensures x in xs[..i] <==> multiset(xs[..i])[x] >= 1 {
      assert x in xs[..i] <==> x in multiset(xs[..i]);
    }
  }

  lemma RepeatedNone<T>(xs: seq<T>)
    ensures Repeated(xs) == {} <==> NoRepeats(xs)
    ensures Repeated(xs[..0]) == {}
  {
    if NoRepeats(xs) {
      forall x | x in xs ensures multiset(xs)[x] < 2 { OccursOnce(xs, x); }
    } else {
      var i, j :| 0 <= i < j < |xs| && xs[i] == xs[j];
      assert xs[..j][i] == xs[j];
      OccursTwice(xs, j);
      assert xs[j] in Repeated(xs);
    }
  }

  lemma {:induction false} NoRepeatsCount<T>(xs: seq<T>)
    requires NoRepeats(xs)
    ensures |Elements(xs)| == |xs|
  {
    if xs == [] {
    } else {
      var last := xs[|xs| - 1];
      var rest := xs[..|xs| - 1];
      NoRepeatsCount(rest);
      assert last !in rest;
      assert Elements(xs) == Elements(rest) + {last};
    }
  }

  lemma SubsetCount<T>(a: set<T>, b: set<T>)
    requires a <= b
    ensures |a| <= |b|
  {
    assert |b| == |a| + |b - a| by { assert b == a + (b - a); }
  }

  lemma SmallerSet<T>(a: set<T>, b: set<T>, x: T)
    requires a <= b && x in b && x !in a
    ensures |a| < |b|
  {
    SubsetCount(a + {x}, b);
  }

  /** Pigeonhole: a sequence longer than the set it draws from repeats an element. */
  lemma Pigeonhole<T>(xs: seq<T>, s: set<T>) returns (i: nat, j: nat)
    requires forall x :: x in xs ==> x in s
    requires |xs| > |s|
    ensures i < j < |xs| && xs[i] == xs[j]
  {
    if NoRepeats(xs) {
      NoRepeatsCount(xs);
      SubsetCount(Elements(xs), s);
      assert false;
    }
    i, j :| 0 <= i < j < |xs| && xs[i] == xs[j];
  }
}
