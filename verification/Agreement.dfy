/** The fixture validator and the bridge gate agree. */
module Agreement {
  import opened Records
  import opened Dependency
  import opened Planner
  import opened Contract
  import opened Projection
  import opened Writeback
  import opened FieldRecords
  import Bridge
  import opened Fixtures

  /** One entry per intent, recommending what the policy computes, with no final decision. */
  ghost predicate Recommends(intents: seq<Intent>, entries: seq<Entry>) {
    && |entries| == |intents|
    && forall i :: 0 <= i < |intents| ==>
         && entries[i].intentId == intents[i].id
         && entries[i].recommendation.decision == ComputedDecision(intents[i])
         && entries[i].finalDecision.None?
  }

  /** The recommendations as the report builds them. */
  method Recommendations(intents: seq<Intent>) returns (entries: seq<Entry>)
    ensures Recommends(intents, entries)
  {
    hide ComputedDecision;
    entries := [];
    for i := 0 to |intents|
      invariant Recommends(intents[..i], entries)
    {
      assert intents[..i + 1] == intents[..i] + [intents[i]];
      var recommendation := DecideWritebackPolicy(intents[i]);
      entries := entries + [Entry(intents[i].id, recommendation, None)];
    }
    assert intents[..|intents|] == intents;
  }

  ghost predicate DistinctRecords(state: FixtureState) {
    DistinctIds(state.gaps, GapId) && DistinctIds(state.evidence, EvidenceId) && DistinctIds(state.intents, IntentId)
  }

  /** For the records both of them read, the fixture rules hold and the ids are distinct if and only if the
      bridge, given the computed recommendations and no final decision, is ok. */
  lemma ValidatorsAgree(state: FixtureState, entries: seq<Entry>)
    requires Recommends(state.intents, entries)
    ensures CoreSound(state) && DistinctRecords(state) <==>
            Bridge.BridgeAccepts(Some(state.graph), state.gaps, state.evidence, state.intents, entries)
  {
    hide Conformant, Bridge.RecordsSound, Bridge.DecisionsSound, CoreRules;
    if DistinctRecords(state) {
      RecommendationsSound(state.intents, entries);
      SameRules(state);
    }
  }

  /** A fixture state that passes with distinct ids is accepted by the bridge. */
  lemma ValidFixtureIsBridged(state: FixtureState, entries: seq<Entry>)
    requires CoreSound(state) && RestSound(state)
    requires DistinctRecords(state) && Recommends(state.intents, entries)
    ensures Bridge.BridgeAccepts(Some(state.graph), state.gaps, state.evidence, state.intents, entries)
  {
    hide CoreSound, RestSound, Bridge.BridgeAccepts;
    ValidatorsAgree(state, entries);
  }

  /** Where the two differ: listing a gap twice keeps a fixture state sound, and the bridge refuses it. */
  lemma DuplicateGapDivides(state: FixtureState, gap: Gap, entries: seq<Entry>)
    requires CoreSound(state) && RestSound(state) && gap in state.gaps
    ensures var twice := state.(gaps := state.gaps + [gap]);
            && CoreSound(twice) && RestSound(twice)
            && !Bridge.BridgeAccepts(Some(twice.graph), twice.gaps, twice.evidence, twice.intents, entries)
  {
    hide Conformant, IntentConformant, FindGap, Bridge.RecordsSound, Bridge.DecisionsSound;
    var twice := state.(gaps := state.gaps + [gap]);
    forall id ensures FindGap(twice, id) == FindGap(state, id) {
      FoundInFront(state.gaps, gap, id);
      FindsFirst(twice, id);
      FindsFirst(state, id);
    }
    SameFindings(state, twice);
    var i :| 0 <= i < |state.gaps| && state.gaps[i] == gap;
    assert GapId(twice.gaps[i]) == GapId(twice.gaps[|state.gaps|]);
  }

  lemma FindsFirst(state: FixtureState, id: Id)
    ensures FindGap(state, id) == FirstById(state.gaps, GapId, id)
  {
  }

  lemma {:induction false} FoundInFront(gaps: seq<Gap>, gap: Gap, id: Id)
    requires gap in gaps
    ensures FirstById(gaps + [gap], GapId, id) == FirstById(gaps, GapId, id)
  {
    var all := gaps + [gap];
    assert all[0] == gaps[0] && all[1..] == gaps[1..] + [gap];
    if GapId(gaps[0]) != id {
      if gap in gaps[1..] {
        FoundInFront(gaps[1..], gap, id);
      } else {
        NotFoundBehind(gaps[1..], gap, id);
      }
    }
  }

  lemma {:induction false} NotFoundBehind(gaps: seq<Gap>, gap: Gap, id: Id)
    requires GapId(gap) != id
    ensures FirstById(gaps + [gap], GapId, id) == FirstById(gaps, GapId, id)
  {
    if gaps == [] {
      assert ([gap])[1..] == [];
    } else {
      assert (gaps + [gap])[1..] == gaps[1..] + [gap];
      NotFoundBehind(gaps[1..], gap, id);
    }
  }

  /** States that find the same gaps and agree in all else fulfil the same rules. */
  lemma SameFindings(a: FixtureState, b: FixtureState)
    requires b == a.(gaps := b.gaps) && forall gap :: gap in b.gaps <==> gap in a.gaps
    requires forall id :: FindGap(b, id) == FindGap(a, id)
    ensures CoreSound(a) <==> CoreSound(b)
    ensures RestSound(a) <==> RestSound(b)
  {
    hide Conformant, IntentConformant, FindGap, FindEvidence;
    assert forall id :: FindEvidence(b, id) == FindEvidence(a, id) by { SameEvidenceFound(a, b); }
  }

  lemma SameEvidenceFound(a: FixtureState, b: FixtureState)
    requires a.evidence == b.evidence
    ensures forall id :: FindEvidence(b, id) == FindEvidence(a, id)
  {
  }

  datatype Report = Report(issues: seq<Finding>, plan: GraphPlan, bridge: Bridge.Preview)

  /** The report: validate the state, plan its graph, recommend for each intent, and build the bridge. There is
      no report exactly when the graph does not plan. The two verdicts on the shared records are never apart
      while ids are distinct. */
  method BuildReport(state: FixtureState) returns (r: Result<Report, seq<Issue>>)
    ensures r.Ok? <==> Plannable(state.graph.tasks)
    ensures r.Ok? ==> IsPlan(DepsOf(state.graph.tasks), r.value.plan)
    ensures r.Ok? ==> (r.value.issues == [] <==> CoreSound(state) && RestSound(state))
    ensures r.Ok? ==> (r.value.bridge.ok <==> CoreSound(state) && DistinctRecords(state))
    ensures r.Ok? && r.value.issues == [] && DistinctRecords(state) ==> r.value.bridge.ok
    ensures r.Err? ==> !CoreSound(state)
  {
    hide CoreSound, RestSound, DistinctRecords, Bridge.BridgeAccepts, Bridge.AuditsSound, IsProjection, IsPlan, Plannable;
    var issues := ValidateFixtureState(state);
    var planned := PlanTaskGraph(state.graph.tasks);
    CorePlans(state);
    match planned {
      case Err(refused) => r := Err(refused);
      case Ok(plan) =>
        var entries := Recommendations(state.intents);
        ValidatorsAgree(state, entries);
        var bridge := Bridge.BuildPreview(Some(state.graph), state.gaps, state.evidence, state.intents, entries);
        r := Ok(Report(issues, plan, bridge));
    }
  }

  lemma CorePlans(state: FixtureState)
    ensures CoreSound(state) ==> Plannable(state.graph.tasks)
  {
  }

  lemma RecommendationsSound(intents: seq<Intent>, entries: seq<Entry>)
    requires Recommends(intents, entries) && DistinctIds(intents, IntentId)
    ensures Bridge.DecisionsSound(intents, entries)
  {
    hide ComputedDecision;
    forall i, j | 0 <= i < j < |entries| ensures EntryId(entries[i]) != EntryId(entries[j]) {
      assert IntentId(intents[i]) != IntentId(intents[j]);
    }
    forall entry | entry in entries ensures entry.intentId in Ids(intents, IntentId) {
      var i :| 0 <= i < |entries| && entries[i] == entry;
      assert intents[i] in intents && IntentId(intents[i]) == entry.intentId;
    }
    forall intent | intent in intents ensures Bridge.EntrySound(LastById(entries, EntryId), intent) {
      var i :| 0 <= i < |intents| && intents[i] == intent;
      OnlyWithId(entries, EntryId, entries[i]);
      assert EntryId(entries[i]) == intent.id;
    }
  }

  // ----- rule by rule -----

  /** Searching for the first record and looking up the last one find the same. */
  lemma SameGap(state: FixtureState, id: Id)
    requires DistinctRecords(state)
    ensures FindGap(state, id).Some? <==> id in LastById(state.gaps, GapId)
    ensures id in LastById(state.gaps, GapId) ==> FindGap(state, id).value == LastById(state.gaps, GapId)[id]
  {
    LastIsFirst(state.gaps, GapId, id);
  }

  lemma SameEvidence(state: FixtureState, id: Id)
    requires DistinctRecords(state)
    ensures FindEvidence(state, id).Some? <==> id in LastById(state.evidence, EvidenceId)
    ensures id in LastById(state.evidence, EvidenceId) ==>
              FindEvidence(state, id).value == LastById(state.evidence, EvidenceId)[id]
  {
    LastIsFirst(state.evidence, EvidenceId, id);
  }

  lemma SameTask(state: FixtureState, id: Id)
    ensures KnownTask(state, id) <==> id in Ids(state.graph.tasks, TaskId)
  {
    if id in Ids(state.graph.tasks, TaskId) {
      var task :| task in state.graph.tasks && TaskId(task) == id;
    }
    if KnownTask(state, id) {
      var task :| task in state.graph.tasks && task.id == id;
      assert TaskId(task) == id;
    }
  }

  lemma SameGapOfTask(state: FixtureState, item: Evidence, task: Id)
    requires DistinctRecords(state)
    ensures AnswersGapOf(state, item, task) <==> Bridge.GapOfTask(LastById(state.gaps, GapId), item, task)
  {
    hide DistinctRecords, FindGap, LastById;
    if item.gapId.Some? { SameGap(state, item.gapId.value); }
  }

  lemma SameGapRule(state: FixtureState, gap: Gap)
    requires DistinctRecords(state)
    ensures gap.wellFormed && GapFits(state, gap) <==>
            Bridge.GapSound(Ids(state.graph.tasks, TaskId), LastById(state.evidence, EvidenceId), gap)
  {
    hide DistinctRecords, FindEvidence, LastById, KnownTask, Ids;
    SameTask(state, gap.taskId);
    var items := LastById(state.evidence, EvidenceId);
    forall id | id in gap.closedBy
      ensures ClosingEvidenceFits(state, gap, id) <==> id in items && Bridge.Associated(gap, items[id])
    {
      SameEvidence(state, id);
    }
  }

  lemma SameEvidenceRule(state: FixtureState, item: Evidence)
    requires DistinctRecords(state)
    ensures item.wellFormed && EvidenceFits(state, item) <==>
            Bridge.EvidenceSound(Ids(state.graph.tasks, TaskId), LastById(state.gaps, GapId), item)
  {
    hide DistinctRecords, FindGap, LastById, KnownTask, Ids, AnswersGapOf;
    if item.taskId.Some? {
      SameTask(state, item.taskId.value);
      SameGapOfTask(state, item, item.taskId.value);
    }
    if item.gapId.Some? { SameGap(state, item.gapId.value); }
  }

  lemma SameIntentRule(state: FixtureState, intent: Intent)
    requires DistinctRecords(state)
    ensures IntentConformant(intent) && IntentFits(state, intent) <==>
            Bridge.IntentSound(Ids(state.graph.tasks, TaskId), LastById(state.gaps, GapId),
                               LastById(state.evidence, EvidenceId), state.graph.opportunityId, intent)
  {
    hide DistinctRecords, FindEvidence, FindGap, LastById, KnownTask, Ids, AnswersGapOf, Bridge.GapOfTask, IntentConformant;
    if intent.taskId.Some? { SameTask(state, intent.taskId.value); }
    var gaps, items := LastById(state.gaps, GapId), LastById(state.evidence, EvidenceId);
    forall id | id in intent.evidenceIds
      ensures SourceFits(state, intent, id) <==>
              id in items && Bridge.Supports(gaps, state.graph.opportunityId, intent.taskId, items[id])
    {
      SameEvidence(state, id);
      if id in items && intent.taskId.Some? { SameGapOfTask(state, items[id], intent.taskId.value); }
    }
  }

  lemma SameTaskRule(state: FixtureState, task: Task)
    requires DistinctRecords(state)
    ensures TaskFits(state, task) <==>
            Bridge.TaskSoundlyReferenced(LastById(state.gaps, GapId), LastById(state.evidence, EvidenceId),
                                         state.graph.opportunityId, task)
  {
    hide DistinctRecords, FindEvidence, FindGap, LastById, AnswersGapOf, Bridge.GapOfTask;
    var gaps, items := LastById(state.gaps, GapId), LastById(state.evidence, EvidenceId);
    forall id | id in task.gapIds ensures FindGap(state, id).Some? <==> id in gaps {
      SameGap(state, id);
    }
    forall id | id in task.evidenceIds
      ensures TaskEvidenceFits(state, task.id, id) <==>
              id in items && Bridge.UsableBy(gaps, state.graph.opportunityId, task.id, items[id])
    {
      SameEvidence(state, id);
      if id in items { SameGapOfTask(state, items[id], task.id); }
    }
  }

  lemma SameRules(state: FixtureState)
    requires DistinctRecords(state)
    ensures CoreRules(state) <==> Bridge.RecordsSound(state.graph, state.gaps, state.evidence, state.intents)
  {
    hide DistinctRecords, LastById, Ids, GapFits, EvidenceFits, IntentFits, TaskFits, IntentConformant,
      Bridge.GapSound, Bridge.EvidenceSound, Bridge.IntentSound, Bridge.TaskSoundlyReferenced;
    var tasks, gapsById := Ids(state.graph.tasks, TaskId), LastById(state.gaps, GapId);
    var items, opportunity := LastById(state.evidence, EvidenceId), state.graph.opportunityId;
    forall gap | gap in state.gaps
      ensures gap.wellFormed && GapFits(state, gap) <==> Bridge.GapSound(tasks, items, gap)
    {
      SameGapRule(state, gap);
    }
    forall item | item in state.evidence
      ensures item.wellFormed && EvidenceFits(state, item) <==> Bridge.EvidenceSound(tasks, gapsById, item)
    {
      SameEvidenceRule(state, item);
    }
    forall intent | intent in state.intents
      ensures IntentConformant(intent) && IntentFits(state, intent) <==>
              Bridge.IntentSound(tasks, gapsById, items, opportunity, intent)
    {
      SameIntentRule(state, intent);
    }
    forall task | task in state.graph.tasks
      ensures TaskFits(state, task) <==> Bridge.TaskSoundlyReferenced(gapsById, items, opportunity, task)
    {
      SameTaskRule(state, task);
    }
  }
}
