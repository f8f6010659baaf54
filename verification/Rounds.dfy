/** The rounds in which a dependency graph can be worked off: a task is ready once all of its
    dependencies were done in earlier rounds. */
module Rounds {
  import opened Records
  import opened Dependency

  /** The tasks done in the first `k` rounds. */
  function Done(d: Deps, k: nat): set<Id> {
    if k == 0 then {} else set t | t in d && d[t].needs <= Done(d, k - 1)
  }

  /** The tasks done in round `k` and not before. */
  function Layer(d: Deps, k: nat): set<Id> {
    Done(d, k + 1) - Done(d, k)
  }

  lemma {:induction false} DoneGrows(d: Deps, k: nat)
    ensures Done(d, k) <= Done(d, k + 1) <= d.Keys
  {
    if k > 0 { DoneGrows(d, k - 1); }
  }

  lemma {:induction false} DoneMonotone(d: Deps, j: nat, k: nat)
    requires j <= k
    ensures Done(d, j) <= Done(d, k)
    decreases k
  {
    if j < k {
      DoneMonotone(d, j, k - 1);
      DoneGrows(d, k - 1);
    }
  }

  /** A task is in layer 0 when it has no dependency, and otherwise one layer after the last of its
      dependencies' layers. */
  lemma LayerIsOneAfterDependencies(d: Deps, k: nat, t: Id)
    ensures t in Layer(d, k) <==>
              t in d && d[t].needs <= Done(d, k) &&
              (if k == 0 then d[t].needs == {} else d[t].needs * Layer(d, k - 1) != {})
  {
    DoneGrows(d, k);
    if k > 0 {
      DoneGrows(d, k - 1);
      if t in d && d[t].needs <= Done(d, k) && !(d[t].needs <= Done(d, k - 1)) {
        var x :| x in d[t].needs && x !in Done(d, k - 1);
        assert x in d[t].needs * Layer(d, k - 1);
      }
    }
  }

  lemma DoneIsLayers(d: Deps, k: nat, t: Id)
    ensures t in Done(d, k) <==> exists j :: 0 <= j < k && t in Layer(d, j)
    decreases k
  {
    if k > 0 {
      DoneIsLayers(d, k - 1, t);
      DoneGrows(d, k - 1);
      if t in Done(d, k) && t !in Done(d, k - 1) {
        assert t in Layer(d, k - 1);
      }
    }
    forall j | 0 <= j < k && t in Layer(d, j) ensures t in Done(d, k) {
      DoneMonotone(d, j + 1, k);
    }
  }

  /** Two layers have no task in common. */
  lemma LayersDisjoint(d: Deps, j: nat, k: nat, t: Id)
    requires t in Layer(d, j) && t in Layer(d, k)
    ensures j == k
  {
    if j < k { DoneMonotone(d, j + 1, k); }
    if k < j { DoneMonotone(d, k + 1, j); }
  }

  /** The rounds stop early exactly when a cycle keeps some tasks waiting. */
  lemma ExhaustedIffAcyclic(d: Deps, n: nat)
    requires Closed(d)
    requires Layer(d, n) == {}
    ensures Done(d, n) == d.Keys <==> Acyclic(d)
  {
    DoneGrows(d, n);
    if Done(d, n) == d.Keys {
      forall p ensures !ClosedWalk(d, p) {
        if ClosedWalk(d, p) {
          var q := LongWalk(d, p, n);
          WalkFitsInRounds(d, n, q);
        }
      }
    } else {
      var stuck := d.Keys - Done(d, n);
      forall t | t in stuck ensures d[t].needs * stuck != {} {
        assert t !in Layer(d, n);
        var x :| x in d[t].needs && x !in Done(d, n);
        assert x in d[t].needs * stuck;
      }
      StuckSetHasCycle(d, stuck);
    }
  }

  /** A walk that starts in the first `n` rounds has at most `n` tasks. */
  lemma {:induction false} WalkFitsInRounds(d: Deps, n: nat, p: seq<Id>)
    requires IsWalk(d, p)
    requires p[0] in Done(d, n)
    ensures |p| <= n
    decreases n
  {
    if |p| > 1 {
      assert p[1] in d[p[0]].needs;
      assert IsWalk(d, p[1..]);
      WalkFitsInRounds(d, n - 1, p[1..]);
    }
  }

  /** Going around a closed walk gives walks of any length. */
  lemma {:induction false} LongWalk(d: Deps, p: seq<Id>, n: nat) returns (q: seq<Id>)
    requires ClosedWalk(d, p)
    ensures IsWalk(d, q) && q[0] == p[0] && q[|q| - 1] == p[0] && |q| > n
  {
    if n == 0 {
      q := p;
    } else {
      q := LongWalk(d, p, n - 1);
      q := q + p[1..];
    }
  }

  /** Some walk starting in layer `k` has `k + 1` tasks. */
  lemma {:induction false} LayerHasChain(d: Deps, k: nat, t: Id) returns (p: seq<Id>)
    requires t in Layer(d, k)
    ensures IsWalk(d, p) && p[0] == t && |p| == k + 1
  {
    LayerIsOneAfterDependencies(d, k, t);
    if k == 0 {
      p := [t];
    } else {
      var x :| x in d[t].needs * Layer(d, k - 1);
      p := LayerHasChain(d, k - 1, x);
      p := [t] + p;
    }
  }

  /** An assignment of the tasks to rounds that puts every dependency in an earlier round. */
  ghost predicate Schedule(d: Deps, round: map<Id, nat>) {
    d.Keys <= round.Keys && forall t, x :: t in d && x in d[t].needs && x in d ==> round[x] < round[t]
  }

  /** The layering is optimal: no schedule runs a task before its layer. */
  lemma {:induction false} LayersAreEarliest(d: Deps, round: map<Id, nat>, k: nat, t: Id)
    requires Schedule(d, round)
    requires t in Layer(d, k)
    ensures k <= round[t]
    decreases k
  {
    LayerIsOneAfterDependencies(d, k, t);
    if k > 0 {
      var x :| x in d[t].needs * Layer(d, k - 1);
      DoneGrows(d, k - 1);
      LayersAreEarliest(d, round, k - 1, x);
    }
  }
}
