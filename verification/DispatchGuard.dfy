/** The executor gateway's dispatch guard: at most one live run per workflow. */
module DispatchGuard {

  datatype Run = Run(workflow: string, ref: string)

  /** `active` is the gateway's map of executions, `live` the runs still going on, and `settled` the runs
      that ended and whose entry is yet to be removed. */
  datatype Guard = Guard(active: map<string, string>, live: set<Run>, settled: set<Run>)

  datatype Event =
    | Dispatch(run: Run)
    | Settle(run: Run)
    | Cleanup(run: Run)

  const NOTHING_RUNNING := Guard(map[], {}, {})

  function Step(g: Guard, e: Event): Guard {
    match e
    case Dispatch(run) =>
      if run.workflow in g.active then g
      else g.(active := g.active[run.workflow := run.ref], live := g.live + {run})
    case Settle(run) =>
      if run in g.live then g.(live := g.live - {run}, settled := g.settled + {run}) else g
    case Cleanup(run) =>
      if run in g.settled then g.(active := g.active - {run.workflow}, settled := g.settled - {run}) else g
  }

  function After(events: seq<Event>): Guard {
    if events == [] then NOTHING_RUNNING else Step(After(events[..|events| - 1]), events[|events| - 1])
  }

  /** The map holds exactly the runs that are live or not yet removed, one per workflow. */
  ghost predicate Consistent(g: Guard) {
    && g.live !! g.settled
    && (forall run :: run in g.live + g.settled <==> run.workflow in g.active && g.active[run.workflow] == run.ref)
  }

  lemma StepConsistent(g: Guard, e: Event)
    requires Consistent(g)
    ensures Consistent(Step(g, e))
  {
    var h := Step(g, e);
    forall run
      ensures run in h.live + h.settled <==> run.workflow in h.active && h.active[run.workflow] == run.ref
    {
      assert run in g.live + g.settled <==> run.workflow in g.active && g.active[run.workflow] == run.ref;
      assert run == Run(run.workflow, run.ref) && e.run == Run(e.run.workflow, e.run.ref);
      assert e.run in g.live + g.settled <==> e.run.workflow in g.active && g.active[e.run.workflow] == e.run.ref;
    }
  }

  lemma {:induction false} AlwaysConsistent(events: seq<Event>)
    ensures Consistent(After(events))
  {
    if events != [] {
      AlwaysConsistent(events[..|events| - 1]);
      StepConsistent(After(events[..|events| - 1]), events[|events| - 1]);
    }
  }

  /** After any sequence of dispatches, endings and removals, a workflow has at most one live run, and while
      it has one, further dispatches for it start nothing. */
  lemma AtMostOneLiveRun(events: seq<Event>, a: Run, b: Run)
    requires a in After(events).live && a.workflow == b.workflow
    ensures b in After(events).live ==> a == b
    ensures After(events + [Dispatch(b)]) == After(events)
  {
    var g := After(events);
    AlwaysConsistent(events);
    assert a in g.live + g.settled;
    assert b in g.live ==> b in g.live + g.settled;
    assert (events + [Dispatch(b)])[..|events|] == events;
  }

  /** A dispatch starts a run exactly when no run of the workflow is live or waiting to be removed. */
  lemma DispatchStarts(events: seq<Event>, run: Run)
    ensures run in After(events + [Dispatch(run)]).live && run !in After(events).live <==>
              forall other :: other in After(events).live + After(events).settled ==> other.workflow != run.workflow
  {
    var g := After(events);
    AlwaysConsistent(events);
    assert (events + [Dispatch(run)])[..|events|] == events;
    if run.workflow in g.active {
      assert Run(run.workflow, g.active[run.workflow]) in g.live + g.settled;
    }
  }

  lemma AfterNext(events: seq<Event>, e: Event)
    ensures After(events + [e]) == Step(After(events), e)
  {
    assert (events + [e])[..|events|] == events;
  }

  /** Once a live run has settled and its entry is removed, the next dispatch of its workflow starts a run. */
  lemma StartsAgainAfterEnd(events: seq<Event>, run: Run, again: Run)
    requires run in After(events).live && again.workflow == run.workflow
    ensures again in After(events + [Settle(run)] + [Cleanup(run)] + [Dispatch(again)]).live
    ensures run != again ==> run !in After(events + [Settle(run)] + [Cleanup(run)] + [Dispatch(again)]).live
  {
    hide After;
    AfterNext(events, Settle(run));
    AfterNext(events + [Settle(run)], Cleanup(run));
    AfterNext(events + [Settle(run)] + [Cleanup(run)], Dispatch(again));
  }

  /** The guard as the gateway keeps it, changed in place by each request and each ending. */
  class Gateway {
    var activeExecutions: map<string, string>
    ghost var live: set<Run>
    ghost var settled: set<Run>

    ghost function View(): Guard
      reads this
    {
      Guard(activeExecutions, live, settled)
    }

    constructor ()
      ensures View() == NOTHING_RUNNING
    {
      activeExecutions, live, settled := map[], {}, {};
    }

    method HandleDispatch(run: Run) returns (started: bool)
      modifies this
      ensures View() == Step(old(View()), Dispatch(run))
      ensures started <==> run.workflow !in old(activeExecutions)
    {
      if run.workflow in activeExecutions {
        return false;
      }
      activeExecutions := activeExecutions[run.workflow := run.ref];
      live := live + {run};
      started := true;
    }

    ghost method RunSettles(run: Run)
      requires run in live
      modifies this
      ensures View() == Step(old(View()), Settle(run))
    {
      live, settled := live - {run}, settled + {run};
    }

    method RemoveFinished(run: Run)
      requires run in settled
      modifies this
      ensures View() == Step(old(View()), Cleanup(run))
    {
      activeExecutions := activeExecutions - {run.workflow};
      settled := settled - {run};
    }

    /** A run ends, by returning or by an error, and its entry is removed. */
    method FinishRun(run: Run)
      requires run in live
      modifies this
      ensures View() == Step(Step(old(View()), Settle(run)), Cleanup(run))
    {
      RunSettles(run);
      RemoveFinished(run);
    }
  }
}
