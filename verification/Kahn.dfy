/** The Kahn loop: draining the ready queue layer by layer. */
module Kahn {
  import opened Records
  import opened Ordering
  import opened Dependency
  import opened Rounds
  import opened EdgeTables

  /** The tasks that became free while the done set grew from `base` to `done`. */
  ghost function Freed(d: Deps, base: set<Id>, done: set<Id>): set<Id> {
    set t | t in d && d[t].needs <= done && !(d[t].needs <= base)
  }

  lemma RemoveOne(s: set<Id>, done: set<Id>, id: Id)
    requires id !in done
    ensures Undone(s, done + {id}) == Undone(s, done) - (if id in s then 1 else 0)
    ensures Undone(s, done + {id}) == 0 <==> s <= done + {id}
  {
    if id in s {
      assert s - done == (s - (done + {id})) + {id};
    } else {
      assert s - done == s - (done + {id});
    }
    if |s - (done + {id})| == 0 {
      assert s - (done + {id}) == {};
    }
    if s <= done + {id} {
      assert s - (done + {id}) == {};
    }
  }

  /** The counts once the dependents in `released` were told that one more dependency is done. */
  ghost predicate PartlyCounted(d: Deps, done: set<Id>, released: set<Id>, indegree: map<Id, nat>) {
    && indegree.Keys == d.Keys
    && forall t :: t in d ==> indegree[t] == Undone(d[t].needs, done) - (if t in released then 1 else 0)
  }

  /** The free tasks once the dependents of `id` in `released` were told that it is done. */
  ghost function FreedBy(d: Deps, base: set<Id>, done: set<Id>, id: Id, released: set<Id>): set<Id> {
    Freed(d, base, done) + set t | t in released && t in d && d[t].needs <= done + {id}
  }

  lemma CountOneLess(d: Deps, done: set<Id>, id: Id, released: set<Id>, indegree: map<Id, nat>, t: Id)
    requires PartlyCounted(d, done, released, indegree)
    requires id !in done && t in Dependents(d, id) && t !in released
    ensures t in indegree && indegree[t] > 0
    ensures PartlyCounted(d, done, released + {t}, indegree[t := indegree[t] - 1])
    ensures indegree[t] - 1 == 0 <==> d[t].needs <= done + {id}
  {
    hide Undone;
    RemoveOne(d[t].needs, done, id);
  }

  lemma FreedOneMore(d: Deps, base: set<Id>, done: set<Id>, id: Id, released: set<Id>, t: Id)
    requires base <= done && id !in done && t in Dependents(d, id) && t !in released
    ensures t !in FreedBy(d, base, done, id, released)
    ensures FreedBy(d, base, done, id, released + {t}) ==
            FreedBy(d, base, done, id, released) + (if d[t].needs <= done + {id} then {t} else {})
  {
  }

  lemma NothingReleased(d: Deps, base: set<Id>, done: set<Id>, id: Id, indegree: map<Id, nat>)
    requires CountsOf(d, done, indegree)
    ensures PartlyCounted(d, done, {}, indegree)
    ensures FreedBy(d, base, done, id, {}) == Freed(d, base, done)
  {
  }

  lemma AllReleased(d: Deps, base: set<Id>, done: set<Id>, id: Id, indegree: map<Id, nat>)
    requires base <= done && id !in done
    requires PartlyCounted(d, done, Dependents(d, id), indegree)
    ensures CountsOf(d, done + {id}, indegree)
    ensures FreedBy(d, base, done, id, Dependents(d, id)) == Freed(d, base, done + {id})
  {
    forall t | t in d ensures indegree[t] == Undone(d[t].needs, done + {id}) {
      RemoveOne(d[t].needs, done, id);
    }
  }

  /** Marks `id` as done: one waiting count less for each of its dependents, and those that reach zero
      become ready. No count goes below zero. */
  method Release(ghost d: Deps, ghost base: set<Id>, ghost done: set<Id>, id: Id, waiting: seq<Id>,
                 counts: map<Id, nat>, ready: seq<Id>) returns (indegree: map<Id, nat>, nextReady: seq<Id>)
    requires CountsOf(d, done, counts)
    requires base <= done && id !in done
    requires Lists(waiting, Dependents(d, id))
    requires Lists(ready, Freed(d, base, done))
    ensures CountsOf(d, done + {id}, indegree)
    ensures Lists(nextReady, Freed(d, base, done + {id}))
  {
    hide CountsOf, PartlyCounted, Freed, FreedBy, Dependents, Elements, NoRepeats;
    indegree, nextReady := counts, ready;
    NothingReleased(d, base, done, id, indegree);
    ElementsAll(waiting);
    ghost var released: set<Id> := {};
    for m := 0 to |waiting|
      invariant released == Elements(waiting[..m])
      invariant PartlyCounted(d, done, released, indegree)
      invariant Lists(nextReady, FreedBy(d, base, done, id, released))
    {
      var t := waiting[m];
      ElementsNext(waiting, m);
      CountOneLess(d, done, id, released, indegree, t);
      FreedOneMore(d, base, done, id, released, t);
      indegree := indegree[t := indegree[t] - 1];
      if indegree[t] == 0 {
        ListsOneMore(nextReady, FreedBy(d, base, done, id, released), t);
        nextReady := nextReady + [t];
      }
      released := released + {t};
    }
    AllReleased(d, base, done, id, indegree);
  }

  lemma FreedStart(d: Deps, k: nat)
    ensures Freed(d, Done(d, k), Done(d, k)) == {}
    ensures Freed(d, Done(d, k), Done(d, k + 1)) == Layer(d, k + 1)
    ensures Done(d, k + 1) == Done(d, k) + Layer(d, k)
    ensures Done(d, k) !! Layer(d, k) && Layer(d, k) <= d.Keys
  {
    DoneGrows(d, k);
  }

  lemma WaitingFor(d: Deps, dependents: map<Id, seq<Id>>, id: Id)
    requires DependentsOf(d, dependents) && id in d
    ensures id in dependents && Lists(dependents[id], Dependents(d, id))
  {
  }

  lemma ListsOfListed(s: seq<Id>, e: set<Id>)
    requires Lists(s, e)
    ensures Elements(s) == e && NoRepeats(s)
    ensures Lists([], {})
  {
  }

  lemma TakeNext(s: seq<Id>, i: nat, before: seq<Id>, base: set<Id>)
    requires i < |s|
    ensures before + s[..i] + [s[i]] == before + s[..i + 1]
    ensures before + s[..0] == before
    ensures base + Elements(s[..i]) + {s[i]} == base + Elements(s[..i + 1])
  {
    ElementsNext(s, i);
  }

  /** Works off one layer, appending it to the order and collecting the next one. */
  method WorkOffLayer(ghost d: Deps, ghost k: nat, layer: seq<Id>, counts: map<Id, nat>,
                      dependents: map<Id, seq<Id>>, before: seq<Id>)
    returns (indegree: map<Id, nat>, nextReady: seq<Id>, order: seq<Id>)
    requires Lists(layer, Layer(d, k))
    requires CountsOf(d, Done(d, k), counts)
    requires DependentsOf(d, dependents)
    ensures CountsOf(d, Done(d, k + 1), indegree)
    ensures Lists(nextReady, Layer(d, k + 1))
    ensures order == before + layer
  {
    hide Lists, CountsOf, DependentsOf, Freed, Dependents, Elements, NoRepeats, Layer, Done;
    FreedStart(d, k);
    ElementsAll(layer);
    ListsOfListed(layer, Layer(d, k));
    indegree, nextReady, order := counts, [], before;
    ghost var base := Done(d, k);
    ghost var done := base;
    for j := 0 to |layer|
      invariant done == base + Elements(layer[..j])
      invariant order == before + layer[..j]
      invariant CountsOf(d, done, indegree)
      invariant Lists(nextReady, Freed(d, base, done))
    {
      var id := layer[j];
      ElementsNext(layer, j);
      TakeNext(layer, j, before, base);
      order := order + [id];
      WaitingFor(d, dependents, id);
      indegree, nextReady := Release(d, base, done, id, dependents[id], indegree, nextReady);
      done := done + {id};
    }
  }

  function Flatten(layers: seq<seq<Id>>): seq<Id> {
    if layers == [] then [] else Flatten(layers[..|layers| - 1]) + layers[|layers| - 1]
  }

  /** `layer` is the sorted list of the `k`-th layer of the graph. */
  ghost predicate IsLayer(d: Deps, k: nat, layer: seq<Id>) {
    layer != [] && StrictlySorted(layer) && Elements(layer) == Layer(d, k)
  }

  ghost predicate LayersOf(d: Deps, layers: seq<seq<Id>>) {
    forall k :: 0 <= k < |layers| ==> IsLayer(d, k, layers[k])
  }

  ghost function ZeroCounts(indegree: map<Id, nat>, ids: set<Id>): set<Id> {
    set x | x in ids && x in indegree && indegree[x] == 0
  }

  /** The ids whose count is zero, in order. */
  method FirstReady(ids: seq<Id>, indegree: map<Id, nat>) returns (ready: seq<Id>)
    requires StrictlySorted(ids) && Elements(ids) == indegree.Keys
    ensures StrictlySorted(ready)
    ensures Elements(ready) == ZeroCounts(indegree, indegree.Keys)
  {
    hide Elements, ZeroCounts;
    ready := [];
    ElementsAll(ids);
    NoZeroCounts(indegree);
    for i := 0 to |ids|
      invariant StrictlySorted(ready)
      invariant Elements(ready) == ZeroCounts(indegree, Elements(ids[..i]))
    {
      ElementsNext(ids, i);
      NextZeroCount(indegree, ids, i);
      if indegree[ids[i]] == 0 {
        AppendLast(ids, i, ready);
        ready := ready + [ids[i]];
      }
    }
  }

  lemma NoZeroCounts(indegree: map<Id, nat>)
    ensures Elements<Id>([]) == ZeroCounts(indegree, {})
    ensures StrictlySorted([])
  {
  }

  lemma NextZeroCount(indegree: map<Id, nat>, ids: seq<Id>, i: nat)
    requires i < |ids| && ids[i] in indegree
    ensures ZeroCounts(indegree, Elements(ids[..i]) + {ids[i]}) ==
            ZeroCounts(indegree, Elements(ids[..i])) + (if indegree[ids[i]] == 0 then {ids[i]} else {})
    ensures ZeroCounts(indegree, Elements(ids[..i])) <= Elements(ids[..i])
  {
  }

  lemma AppendLast(ids: seq<Id>, i: nat, ready: seq<Id>)
    requires i < |ids| && StrictlySorted(ids) && StrictlySorted(ready)
    requires Elements(ready) <= Elements(ids[..i])
    ensures StrictlySorted(ready + [ids[i]])
    ensures Elements(ready + [ids[i]]) == Elements(ready) + {ids[i]}
  {
    forall j | 0 <= j < |ready| ensures Below(ready[j], ids[i]) {
      assert ready[j] in Elements(ready);
      assert ready[j] in ids[..i];
    }
  }

  ghost function Remaining(d: Deps, k: nat): nat {
    |d.Keys - Done(d, k)|
  }

  lemma FewerRemain(d: Deps, k: nat, t: Id)
    requires t in Layer(d, k)
    ensures Remaining(d, k + 1) < Remaining(d, k)
  {
    DoneGrows(d, k);
    SmallerSet(d.Keys - Done(d, k + 1), d.Keys - Done(d, k), t);
  }

  lemma NextLayers(d: Deps, layers: seq<seq<Id>>, layer: seq<Id>)
    requires LayersOf(d, layers) && IsLayer(d, |layers|, layer)
    ensures LayersOf(d, layers + [layer])
    ensures Flatten(layers + [layer]) == Flatten(layers) + layer
    ensures Lists(layer, Layer(d, |layers|))
    ensures Remaining(d, |layers| + 1) < Remaining(d, |layers|)
  {
    assert (layers + [layer])[..|layers|] == layers;
    StrictlySortedNoRepeats(layer);
    assert layer[0] in Elements(layer);
    FewerRemain(d, |layers|, layer[0]);
  }

  lemma FirstLayer(d: Deps, indegree: map<Id, nat>)
    requires CountsOf(d, {}, indegree)
    ensures ZeroCounts(indegree, indegree.Keys) == Layer(d, 0)
  {
    hide Undone;
    forall t | t in d ensures indegree[t] == 0 <==> d[t].needs <= {} {
      NoneUndone(d[t].needs);
    }
  }

  lemma NoneUndone(deps: set<Id>)
    ensures Undone(deps, {}) == 0 <==> deps <= {}
  {
    assert deps - {} == deps;
  }

  /** The Kahn loop yields the layers one by one until no task is ready, whether or not the graph has cycles. */
  method Drain(ghost d: Deps, ids: seq<Id>, counts: map<Id, nat>, dependents: map<Id, seq<Id>>)
    returns (order: seq<Id>, layers: seq<seq<Id>>)
    requires StrictlySorted(ids) && Elements(ids) == d.Keys
    requires CountsOf(d, {}, counts)
    requires DependentsOf(d, dependents)
    ensures LayersOf(d, layers)
    ensures Layer(d, |layers|) == {}
    ensures order == Flatten(layers)
  {
    hide CountsOf, DependentsOf, Elements, Layer, Done, LayersOf, StrictlySorted, Lists, IsLayer, ZeroCounts, Flatten, Sort, Remaining;
    var indegree := counts;
    order, layers := [], [];
    NoLayersYet(d);
    CountsHaveRows(d, indegree);
    var ready := FirstReady(ids, indegree);
    FirstLayer(d, indegree);
    EmptyOrLayer(d, 0, ready);
    while ready != []
      invariant LayersOf(d, layers)
      invariant order == Flatten(layers)
      invariant if ready == [] then Layer(d, |layers|) == {} else IsLayer(d, |layers|, ready)
      invariant CountsOf(d, Done(d, |layers|), indegree)
      decreases Remaining(d, |layers|)
    {
      var layer := ready;
      NextLayers(d, layers, layer);
      var nextReady;
      indegree, nextReady, order := WorkOffLayer(d, |layers|, layer, indegree, dependents, order);
      SortListed(nextReady, Layer(d, |layers| + 1));
      ready := Sort(nextReady);
      EmptyOrLayer(d, |layers| + 1, ready);
      layers := layers + [layer];
    }
  }

  lemma CountsHaveRows(d: Deps, indegree: map<Id, nat>)
    requires CountsOf(d, {}, indegree)
    ensures indegree.Keys == d.Keys
  {
  }

  lemma NoLayersYet(d: Deps)
    ensures LayersOf(d, []) && Flatten([]) == [] && Done(d, 0) == {}
  {
  }

  lemma EmptyOrLayer(d: Deps, k: nat, ready: seq<Id>)
    requires StrictlySorted(ready) && Elements(ready) == Layer(d, k)
    ensures if ready == [] then Layer(d, k) == {} else IsLayer(d, k, ready)
  {
  }

  lemma SortListed(s: seq<Id>, e: set<Id>)
    requires Lists(s, e)
    ensures StrictlySorted(Sort(s)) && Elements(Sort(s)) == e
  {
    SortIsSorted(s);
    SortElements(s);
  }
}
