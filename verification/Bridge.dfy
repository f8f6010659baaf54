/** The bridge gate: it checks all records against each other and emits legacy payloads only when there is
    nothing to complain about. Records are looked up in maps in which the last one with an id wins. */
module Bridge {
  import opened Records
  import opened Contract
  import opened Projection
  import opened Writeback
  import opened FieldRecords

  type Gaps = map<Id, Gap>
  type Items = map<Id, Evidence>

  // ----- what the bridge demands -----

  ghost predicate Associated(gap: Gap, item: Evidence) {
    (item.taskId.Some? ==> item.taskId.value == gap.taskId) && (item.gapId.Some? ==> item.gapId.value == gap.id)
  }

  ghost predicate SameOpportunity(opportunity: Option<Id>, item: Evidence) {
    opportunity.Some? && item.opportunityId.Some? ==> item.opportunityId.value == opportunity.value
  }

  /** If the item answers a known gap, the gap belongs to the task. */
  ghost predicate GapOfTask(gaps: Gaps, item: Evidence, task: Id) {
    item.gapId.Some? && item.gapId.value in gaps ==> gaps[item.gapId.value].taskId == task
  }

  ghost predicate GapSound(tasks: set<Id>, items: Items, gap: Gap) {
    && gap.wellFormed && gap.taskId in tasks
    && forall id :: id in gap.closedBy ==> id in items && Associated(gap, items[id])
  }

  ghost predicate EvidenceSound(tasks: set<Id>, gaps: Gaps, item: Evidence) {
    && item.wellFormed
    && (item.taskId.Some? ==> item.taskId.value in tasks)
    && (item.gapId.Some? ==> item.gapId.value in gaps)
    && (item.taskId.Some? ==> GapOfTask(gaps, item, item.taskId.value))
  }

  ghost predicate Supports(gaps: Gaps, opportunity: Option<Id>, source: Option<Id>, item: Evidence) {
    && (source.Some? ==> item.taskId == source && GapOfTask(gaps, item, source.value))
    && SameOpportunity(opportunity, item)
  }

  ghost predicate IntentSound(tasks: set<Id>, gaps: Gaps, items: Items, opportunity: Option<Id>, intent: Intent) {
    && IntentConformant(intent)
    && (intent.taskId.Some? ==> intent.taskId.value in tasks)
    && forall id :: id in intent.evidenceIds ==> id in items && Supports(gaps, opportunity, intent.taskId, items[id])
  }

  ghost predicate UsableBy(gaps: Gaps, opportunity: Option<Id>, task: Id, item: Evidence) {
    && (item.taskId.Some? ==> item.taskId.value == task)
    && GapOfTask(gaps, item, task)
    && SameOpportunity(opportunity, item)
  }

  ghost predicate TaskSoundlyReferenced(gaps: Gaps, items: Items, opportunity: Option<Id>, task: Task) {
    && (forall id :: id in task.evidenceIds ==> id in items && UsableBy(gaps, opportunity, task.id, items[id]))
    && (forall id :: id in task.gapIds ==> id in gaps)
  }

  ghost predicate EntrySound(entries: map<Id, Entry>, intent: Intent) {
    && intent.id in entries
    && entries[intent.id].recommendation.decision == ComputedDecision(intent)
    && (entries[intent.id].finalDecision.Some? ==>
          Allows(entries[intent.id].finalDecision.value.decision, ComputedDecision(intent)) &&
          Allows(entries[intent.id].finalDecision.value.decision, intent.policyDecision))
  }

  ghost predicate DecisionsSound(intents: seq<Intent>, entries: seq<Entry>) {
    && DistinctIds(entries, EntryId)
    && (forall entry :: entry in entries ==> entry.intentId in Ids(intents, IntentId))
    && (forall intent :: intent in intents ==> EntrySound(LastById(entries, EntryId), intent))
  }

  ghost predicate RecordsSound(graph: TaskGraph, gaps: seq<Gap>, evidence: seq<Evidence>, intents: seq<Intent>) {
    var tasks, gapsById, items := Ids(graph.tasks, TaskId), LastById(gaps, GapId), LastById(evidence, EvidenceId);
    && (forall gap :: gap in gaps ==> GapSound(tasks, items, gap))
    && (forall item :: item in evidence ==> EvidenceSound(tasks, gapsById, item))
    && (forall intent :: intent in intents ==> IntentSound(tasks, gapsById, items, graph.opportunityId, intent))
    && (forall task :: task in graph.tasks ==> TaskSoundlyReferenced(gapsById, items, graph.opportunityId, task))
  }

  ghost predicate BridgeAccepts(graph: Option<TaskGraph>, gaps: seq<Gap>, evidence: seq<Evidence>,
                                intents: seq<Intent>, entries: seq<Entry>)
  {
    && graph.Some? && Conformant(graph.value)
    && DistinctIds(gaps, GapId) && DistinctIds(evidence, EvidenceId) && DistinctIds(intents, IntentId)
    && RecordsSound(graph.value, gaps, evidence, intents)
    && DecisionsSound(intents, entries)
  }

  // ----- the checks -----

  function AssociationFindings(gap: Gap, item: Evidence): (r: seq<Finding>)
    ensures r == [] <==> Associated(gap, item)
  {
    (if item.taskId.Some? && item.taskId.value != gap.taskId then [WrongTask(gap.id, item.id)] else []) +
    (if item.gapId.Some? && item.gapId.value != gap.id then [WrongGap(gap.id, item.id)] else [])
  }

  function OpportunityFindings(opportunity: Option<Id>, item: Evidence, owner: Id): (r: seq<Finding>)
    ensures r == [] <==> SameOpportunity(opportunity, item)
  {
    if opportunity.Some? && item.opportunityId.Some? && item.opportunityId.value != opportunity.value
    then [WrongOpportunity(owner, item.id)] else []
  }

  function GapOfTaskFindings(gaps: Gaps, item: Evidence, task: Id, owner: Id): (r: seq<Finding>)
    ensures r == [] <==> GapOfTask(gaps, item, task)
  {
    if item.gapId.Some? && item.gapId.value in gaps && gaps[item.gapId.value].taskId != task
    then [WrongGap(owner, item.id)] else []
  }

  method CheckGap(tasks: set<Id>, items: Items, gap: Gap) returns (issues: seq<Finding>)
    ensures issues == [] <==> GapSound(tasks, items, gap)
  {
    hide Associated;
    issues := if gap.wellFormed then [] else [InvalidRecord(gap.id)];
    if gap.taskId !in tasks {
      issues := issues + [UnknownTask(gap.id)];
    }
    for i := 0 to |gap.closedBy|
      invariant issues == [] <==> gap.wellFormed && gap.taskId in tasks &&
                                  forall j :: 0 <= j < i ==> gap.closedBy[j] in items && Associated(gap, items[gap.closedBy[j]])
    {
      var id := gap.closedBy[i];
      if id !in items {
        issues := issues + [UnknownEvidence(gap.id, id)];
      } else {
        issues := issues + AssociationFindings(gap, items[id]);
      }
    }
  }

  method CheckEvidence(tasks: set<Id>, gaps: Gaps, item: Evidence) returns (issues: seq<Finding>)
    ensures issues == [] <==> EvidenceSound(tasks, gaps, item)
  {
    issues := if item.wellFormed then [] else [InvalidRecord(item.id)];
    if item.taskId.Some? && item.taskId.value !in tasks {
      issues := issues + [UnknownTask(item.id)];
    }
    if item.gapId.Some? && item.gapId.value !in gaps {
      issues := issues + [UnknownGap(item.id, item.gapId.value)];
    } else if item.taskId.Some? && item.gapId.Some? {
      issues := issues + GapOfTaskFindings(gaps, item, item.taskId.value, item.id);
    }
  }

  method CheckIntent(tasks: set<Id>, gaps: Gaps, items: Items, opportunity: Option<Id>, intent: Intent)
    returns (issues: seq<Finding>)
    ensures issues == [] <==> IntentSound(tasks, gaps, items, opportunity, intent)
  {
    hide IntentConformant, Supports;
    var own := ValidateIntent(intent);
    issues := if own == [] then [] else [InvalidRecord(intent.id)];
    if intent.taskId.Some? && intent.taskId.value !in tasks {
      issues := issues + [UnknownTask(intent.id)];
    }
    ghost var before := issues;
    for i := 0 to |intent.evidenceIds|
      invariant issues == [] <==> before == [] &&
                                  forall j :: 0 <= j < i ==> intent.evidenceIds[j] in items &&
                                                             Supports(gaps, opportunity, intent.taskId, items[intent.evidenceIds[j]])
    {
      var id := intent.evidenceIds[i];
      if id !in items {
        issues := issues + [UnknownEvidence(intent.id, id)];
      } else {
        var more := CheckSupport(gaps, opportunity, intent, items[id]);
        issues := issues + more;
      }
    }
  }

  method CheckSupport(gaps: Gaps, opportunity: Option<Id>, intent: Intent, item: Evidence) returns (issues: seq<Finding>)
    ensures issues == [] <==> Supports(gaps, opportunity, intent.taskId, item)
  {
    issues := [];
    if intent.taskId.Some? {
      if item.taskId != intent.taskId {
        issues := issues + [WrongTask(intent.id, item.id)];
      }
      issues := issues + GapOfTaskFindings(gaps, item, intent.taskId.value, intent.id);
    }
    issues := issues + OpportunityFindings(opportunity, item, intent.id);
  }

  method CheckTask(gaps: Gaps, items: Items, opportunity: Option<Id>, task: Task) returns (issues: seq<Finding>)
    ensures issues == [] <==> TaskSoundlyReferenced(gaps, items, opportunity, task)
  {
    hide UsableBy;
    issues := [];
    for i := 0 to |task.evidenceIds|
      invariant issues == [] <==> forall j :: 0 <= j < i ==> task.evidenceIds[j] in items &&
                                                             UsableBy(gaps, opportunity, task.id, items[task.evidenceIds[j]])
    {
      var id := task.evidenceIds[i];
      if id !in items {
        issues := issues + [UnknownEvidence(task.id, id)];
      } else {
        var more := CheckUse(gaps, opportunity, task.id, items[id]);
        issues := issues + more;
      }
    }
    ghost var before := issues;
    for i := 0 to |task.gapIds|
      invariant issues == [] <==> before == [] && forall j :: 0 <= j < i ==> task.gapIds[j] in gaps
    {
      if task.gapIds[i] !in gaps {
        issues := issues + [UnknownGap(task.id, task.gapIds[i])];
      }
    }
  }

  method CheckUse(gaps: Gaps, opportunity: Option<Id>, task: Id, item: Evidence) returns (issues: seq<Finding>)
    ensures issues == [] <==> UsableBy(gaps, opportunity, task, item)
  {
    issues := [];
    if item.taskId.Some? && item.taskId.value != task {
      issues := issues + [WrongTask(task, item.id)];
    }
    issues := issues + GapOfTaskFindings(gaps, item, task, task) + OpportunityFindings(opportunity, item, task);
  }

  method CheckGaps(tasks: set<Id>, items: Items, gaps: seq<Gap>) returns (issues: seq<Finding>)
    ensures issues == [] <==> DistinctIds(gaps, GapId) && forall gap :: gap in gaps ==> GapSound(tasks, items, gap)
  {
    hide GapSound, DistinctIds, Ids;
    issues := [];
    var seen := {};
    IdsAll(gaps, GapId);
    for i := 0 to |gaps|
      invariant seen == Ids(gaps[..i], GapId)
      invariant issues == [] <==> DistinctIds(gaps[..i], GapId) && forall j :: 0 <= j < i ==> GapSound(tasks, items, gaps[j])
    {
      IdsNext(gaps, GapId, i);
      var own := CheckGap(tasks, items, gaps[i]);
      issues := issues + own;
      if gaps[i].id in seen {
        issues := issues + [DuplicateId(gaps[i].id)];
      }
      seen := seen + {gaps[i].id};
    }
  }

  method CheckAllEvidence(tasks: set<Id>, gaps: Gaps, evidence: seq<Evidence>) returns (issues: seq<Finding>)
    ensures issues == [] <==>
            DistinctIds(evidence, EvidenceId) && forall item :: item in evidence ==> EvidenceSound(tasks, gaps, item)
  {
    hide EvidenceSound, DistinctIds, Ids;
    issues := [];
    var seen := {};
    IdsAll(evidence, EvidenceId);
    for i := 0 to |evidence|
      invariant seen == Ids(evidence[..i], EvidenceId)
      invariant issues == [] <==>
                DistinctIds(evidence[..i], EvidenceId) && forall j :: 0 <= j < i ==> EvidenceSound(tasks, gaps, evidence[j])
    {
      IdsNext(evidence, EvidenceId, i);
      var own := CheckEvidence(tasks, gaps, evidence[i]);
      issues := issues + own;
      if evidence[i].id in seen {
        issues := issues + [DuplicateId(evidence[i].id)];
      }
      seen := seen + {evidence[i].id};
    }
  }

  method CheckIntents(tasks: set<Id>, gaps: Gaps, items: Items, opportunity: Option<Id>, intents: seq<Intent>)
    returns (issues: seq<Finding>, seen: set<Id>)
    ensures issues == [] <==>
            DistinctIds(intents, IntentId) &&
            forall intent :: intent in intents ==> IntentSound(tasks, gaps, items, opportunity, intent)
    ensures seen == Ids(intents, IntentId)
  {
    hide IntentSound, DistinctIds, Ids;
    issues := [];
    seen := {};
    IdsAll(intents, IntentId);
    for i := 0 to |intents|
      invariant seen == Ids(intents[..i], IntentId)
      invariant issues == [] <==>
                DistinctIds(intents[..i], IntentId) &&
                forall j :: 0 <= j < i ==> IntentSound(tasks, gaps, items, opportunity, intents[j])
    {
      IdsNext(intents, IntentId, i);
      var own := CheckIntent(tasks, gaps, items, opportunity, intents[i]);
      issues := issues + own;
      if intents[i].id in seen {
        issues := issues + [DuplicateId(intents[i].id)];
      }
      seen := seen + {intents[i].id};
    }
  }

  method CheckTasks(gaps: Gaps, items: Items, opportunity: Option<Id>, tasks: seq<Task>) returns (issues: seq<Finding>)
    ensures issues == [] <==> forall task :: task in tasks ==> TaskSoundlyReferenced(gaps, items, opportunity, task)
  {
    hide TaskSoundlyReferenced;
    issues := [];
    for i := 0 to |tasks|
      invariant issues == [] <==> forall j :: 0 <= j < i ==> TaskSoundlyReferenced(gaps, items, opportunity, tasks[j])
    {
      var own := CheckTask(gaps, items, opportunity, tasks[i]);
      issues := issues + own;
    }
    assert forall j :: 0 <= j < |tasks| ==> tasks[j] in tasks;
  }

  method CheckDecisions(intents: seq<Intent>, known: set<Id>, entries: seq<Entry>)
    returns (issues: seq<Finding>, decisions: map<Id, Entry>)
    requires known == Ids(intents, IntentId)
    ensures decisions == LastById(entries, EntryId)
    ensures issues == [] <==> DecisionsSound(intents, entries)
  {
    hide DistinctIds, Ids, LastById, EntrySound;
    issues, decisions := [], map[];
    IdsAll(entries, EntryId);
    NoneById(entries);
    for i := 0 to |entries|
      invariant decisions == LastById(entries[..i], EntryId) && decisions.Keys == Ids(entries[..i], EntryId)
      invariant issues == [] <==> DistinctIds(entries[..i], EntryId) && forall j :: 0 <= j < i ==> entries[j].intentId in known
    {
      var entry := entries[i];
      IdsNext(entries, EntryId, i);
      LastByIdNext(entries, EntryId, i);
      if entry.intentId in decisions {
        issues := issues + [DuplicateDecision(entry.intentId)];
      }
      decisions := decisions[entry.intentId := entry];
      if entry.intentId !in known {
        issues := issues + [UnknownIntent(entry.intentId)];
      }
    }
    ghost var before := issues;
    for i := 0 to |intents|
      invariant issues == [] <==> before == [] && forall j :: 0 <= j < i ==> EntrySound(decisions, intents[j])
    {
      var own := CheckEntry(decisions, intents[i]);
      issues := issues + own;
    }
    assert forall j :: 0 <= j < |intents| ==> intents[j] in intents;
    assert forall j :: 0 <= j < |entries| ==> entries[j] in entries;
  }

  lemma NoneById(entries: seq<Entry>)
    ensures LastById(entries[..0], EntryId) == map[]
  {
  }

  method CheckEntry(decisions: map<Id, Entry>, intent: Intent) returns (issues: seq<Finding>)
    ensures issues == [] <==> EntrySound(decisions, intent)
  {
    hide ComputedDecision;
    issues := [];
    if intent.id !in decisions {
      return [MissingDecision(intent.id)];
    }
    var entry := decisions[intent.id];
    var computed := DecideWritebackPolicy(intent);
    if entry.recommendation.decision != computed.decision {
      issues := issues + [WrongRecommendation(intent.id)];
    }
    if entry.finalDecision.Some? {
      var final := entry.finalDecision.value.decision;
      if !Allows(final, computed.decision) || !Allows(final, intent.policyDecision) {
        issues := issues + [TooPermissive(intent.id)];
      }
    }
  }

  // ----- the payloads -----

  datatype AuditEvent = AuditEvent(intentId: Id, decision: Decision, failure: bool, reasons: seq<Reason>)

  datatype Preview = Preview(
    ok: bool,
    issues: seq<Finding>,
    workflow: Option<LegacyPlan>,
    orgTasks: seq<Id>,
    factWrites: seq<Id>,
    audits: seq<AuditEvent>)

  /** The stricter of the stored decision and the required one. */
  function ToAuditEvent(intent: Intent, required: Option<PolicyResult>): (event: AuditEvent)
    ensures Allows(event.decision, intent.policyDecision)
    ensures required.Some? ==> Allows(event.decision, required.value.decision)
    ensures event.decision == intent.policyDecision || (required.Some? && event.decision == required.value.decision)
  {
    var selected :=
      if required.Some? && !Allows(intent.policyDecision, required.value.decision) then required.value.decision
      else intent.policyDecision;
    AuditEvent(intent.id, selected, selected == Reject, if required.Some? then required.value.reasons else [])
  }

  function OpenGaps(gaps: seq<Gap>): (ids: seq<Id>)
    ensures forall id :: id in ids <==> exists gap :: gap in gaps && gap.id == id && gap.status !in {Closed, WaivedGap}
  {
    if gaps == [] then []
    else (if gaps[0].status in {Closed, WaivedGap} then [] else [gaps[0].id]) + OpenGaps(gaps[1..])
  }

  /** `ids` are those of the gaps at the positions `at`, which are, in order, those of the gaps neither closed nor
      waived. */
  ghost predicate OpenAt(gaps: seq<Gap>, at: seq<nat>, ids: seq<Id>) {
    && Increasing(at) && |at| == |ids|
    && (forall n :: 0 <= n < |at| ==> at[n] < |gaps| && ids[n] == gaps[at[n]].id)
    && forall i: nat :: i in at <==> i < |gaps| && gaps[i].status != GapStatus.Closed && gaps[i].status != WaivedGap
  }

  ghost function IdsOf(gaps: seq<Gap>): (ids: seq<Id>)
    ensures |ids| == |gaps| && forall i :: 0 <= i < |gaps| ==> ids[i] == gaps[i].id
  {
    seq(|gaps|, i requires 0 <= i < |gaps| => gaps[i].id)
  }

  ghost function OpenMarks(gaps: seq<Gap>): (marks: seq<bool>)
    ensures |marks| == |gaps|
    ensures forall i :: 0 <= i < |gaps| ==>
              marks[i] == (gaps[i].status != GapStatus.Closed && gaps[i].status != WaivedGap)
  {
    seq(|gaps|, i requires 0 <= i < |gaps| => gaps[i].status != GapStatus.Closed && gaps[i].status != WaivedGap)
  }

  lemma {:induction false} OpenGapsPicked(gaps: seq<Gap>) returns (at: seq<nat>)
    ensures Picked(IdsOf(gaps), OpenMarks(gaps), at, OpenGaps(gaps))
  {
    if gaps == [] {
      at := [];
    } else {
      hide Picked, Shifted;
      var rest := OpenGapsPicked(gaps[1..]);
      assert IdsOf(gaps)[1..] == IdsOf(gaps[1..]) && OpenMarks(gaps)[1..] == OpenMarks(gaps[1..]);
      PickedNext(IdsOf(gaps), OpenMarks(gaps), rest, OpenGaps(gaps[1..]));
      at := Shifted(rest, OpenMarks(gaps)[0]);
    }
  }

  /** Each open gap is listed once, in the order of the gaps. */
  lemma OpenGapsInOrder(gaps: seq<Gap>) returns (at: seq<nat>)
    ensures OpenAt(gaps, at, OpenGaps(gaps))
  {
    hide OpenGaps, Increasing;
    at := OpenGapsPicked(gaps);
  }

  /** The event of an intent carries the final decision if there is one, and otherwise the stored one; it is
      never more permissive than the stored decision or the computed policy. */
  ghost predicate AuditSound(intent: Intent, entry: Entry, event: AuditEvent) {
    && event.intentId == intent.id
    && event.decision == (if entry.finalDecision.Some? then entry.finalDecision.value.decision else intent.policyDecision)
    && Allows(event.decision, intent.policyDecision) && Allows(event.decision, ComputedDecision(intent))
    && (event.failure <==> event.decision == Reject)
    && event.reasons == (if entry.finalDecision.Some? then entry.finalDecision.value.reasons else entry.recommendation.reasons)
  }

  ghost predicate AuditsSound(intents: seq<Intent>, entries: seq<Entry>, audits: seq<AuditEvent>) {
    && |audits| == |intents|
    && forall i :: 0 <= i < |intents| ==>
         intents[i].id in LastById(entries, EntryId) &&
         AuditSound(intents[i], LastById(entries, EntryId)[intents[i].id], audits[i])
  }

  method AuditEvents(intents: seq<Intent>, decisions: map<Id, Entry>) returns (audits: seq<AuditEvent>)
    requires forall intent :: intent in intents ==> IntentConformant(intent) && EntrySound(decisions, intent)
    ensures |audits| == |intents|
    ensures forall i :: 0 <= i < |intents| ==>
      intents[i].id in decisions && AuditSound(intents[i], decisions[intents[i].id], audits[i])
  {
    audits := [];
    for i := 0 to |intents|
      invariant |audits| == i
      invariant forall j :: 0 <= j < i ==>
        intents[j].id in decisions && AuditSound(intents[j], decisions[intents[j].id], audits[j])
    {
      hide ComputedDecision;
      var intent := intents[i];
      assert EntrySound(decisions, intent);
      var entry := decisions[intent.id];
      var decision := if entry.finalDecision.Some? then entry.finalDecision.value else entry.recommendation;
      audits := audits + [ToAuditEvent(intent, Some(decision))];
    }
  }

  /** What the bridge answers. It fails closed: it is ok exactly when all records are sound together, any complaint
      means no payload at all, and an accepted input yields every payload. */
  ghost predicate PreviewOf(graph: Option<TaskGraph>, gaps: seq<Gap>, evidence: seq<Evidence>,
                            intents: seq<Intent>, entries: seq<Entry>, r: Preview)
  {
    && (r.ok <==> BridgeAccepts(graph, gaps, evidence, intents, entries))
    && (r.ok <==> r.issues == [])
    && (!r.ok ==> r.workflow.None? && r.orgTasks == [] && r.factWrites == [] && r.audits == [])
    && (r.ok ==>
          && graph.Some? && r.workflow.Some? && IsProjection(graph.value, r.workflow.value)
          && r.orgTasks == OpenGaps(gaps)
          && |r.factWrites| == |evidence| && (forall i :: 0 <= i < |evidence| ==> r.factWrites[i] == evidence[i].id)
          && AuditsSound(intents, entries, r.audits))
  }

  method BuildPreview(graph: Option<TaskGraph>, gaps: seq<Gap>, evidence: seq<Evidence>,
                      intents: seq<Intent>, entries: seq<Entry>) returns (r: Preview)
    ensures PreviewOf(graph, gaps, evidence, intents, entries, r)
  {
    hide Conformant, DistinctIds, GapSound, EvidenceSound, IntentSound, TaskSoundlyReferenced, DecisionsSound;
    hide IsProjection, AuditSound, IntentConformant, EntrySound, ComputedDecision;
    var workflow: Option<LegacyPlan> := None;
    var issues: seq<Finding> := [];
    var tasks: set<Id> := {};
    var opportunity: Option<Id> := None;
    if graph.Some? {
      var projected := CheckedProjection(graph.value);
      match projected {
        case Ok(plan) => workflow := Some(plan);
        case Err(_) => issues := [InvalidGraph];
      }
      tasks, opportunity := Ids(graph.value.tasks, TaskId), graph.value.opportunityId;
    } else {
      issues := [MissingGraph];
    }
    var gapsById, items := LastById(gaps, GapId), LastById(evidence, EvidenceId);
    var gapIssues := CheckGaps(tasks, items, gaps);
    var evidenceIssues := CheckAllEvidence(tasks, gapsById, evidence);
    var intentIssues, known := CheckIntents(tasks, gapsById, items, opportunity, intents);
    var taskIssues := [];
    if graph.Some? {
      taskIssues := CheckTasks(gapsById, items, opportunity, graph.value.tasks);
    }
    var decisionIssues, decisions := CheckDecisions(intents, known, entries);
    issues := issues + gapIssues + evidenceIssues + intentIssues + taskIssues + decisionIssues;
    if issues != [] {
      return Preview(false, issues, None, [], [], []);
    }
    SoundEntries(graph.value, gaps, evidence, intents, entries);
    var audits := AuditEvents(intents, decisions);
    r := Preview(true, [], workflow, OpenGaps(gaps),
                 seq(|evidence|, i requires 0 <= i < |evidence| => evidence[i].id), audits);
  }

  /** The bridge asks for one task per gap that is neither closed nor waived, in the order of the gaps and none twice. */
  lemma OneTaskPerOpenGap(graph: Option<TaskGraph>, gaps: seq<Gap>, evidence: seq<Evidence>,
                          intents: seq<Intent>, entries: seq<Entry>, r: Preview) returns (at: seq<nat>)
    requires PreviewOf(graph, gaps, evidence, intents, entries, r) && r.ok
    ensures OpenAt(gaps, at, r.orgTasks)
    ensures NoRepeats(r.orgTasks)
  {
    hide RecordsSound, DecisionsSound, AuditsSound, IsProjection, Conformant, OpenGaps;
    at := OpenGapsInOrder(gaps);
    forall m, n | 0 <= m < n < |r.orgTasks| ensures r.orgTasks[m] != r.orgTasks[n] {
      assert GapId(gaps[at[m]]) != GapId(gaps[at[n]]);
    }
  }

  lemma SoundEntries(graph: TaskGraph, gaps: seq<Gap>, evidence: seq<Evidence>, intents: seq<Intent>, entries: seq<Entry>)
    requires RecordsSound(graph, gaps, evidence, intents) && DecisionsSound(intents, entries)
    ensures forall intent :: intent in intents ==>
              IntentConformant(intent) && EntrySound(LastById(entries, EntryId), intent)
  {
    hide IntentConformant, EntrySound;
  }

  // ----- consequences -----

  /** An accepted input has exactly one decision per intent. */
  lemma DecisionsMatchIntents(intents: seq<Intent>, entries: seq<Entry>)
    requires DistinctIds(intents, IntentId) && DecisionsSound(intents, entries)
    ensures Ids(entries, EntryId) == Ids(intents, IntentId)
    ensures |entries| == |intents|
  {
    IdsAll(entries, EntryId);
    assert Ids(entries, EntryId) == Ids(intents, IntentId) by {
      forall intent | intent in intents ensures intent.id in Ids(entries, EntryId) {
        assert EntrySound(LastById(entries, EntryId), intent);
      }
    }
    CountIds(entries, EntryId);
    CountIds(intents, IntentId);
  }

  /** Neither the verdict nor any payload depends on the order of the decisions. */
  lemma DecisionOrderIsIrrelevant(graph: Option<TaskGraph>, gaps: seq<Gap>, evidence: seq<Evidence>, intents: seq<Intent>,
                                  entries: seq<Entry>, shuffled: seq<Entry>, a: Preview, b: Preview)
    requires multiset(entries) == multiset(shuffled)
    requires PreviewOf(graph, gaps, evidence, intents, entries, a)
    requires PreviewOf(graph, gaps, evidence, intents, shuffled, b)
    ensures a.(issues := b.issues) == b
    ensures a.ok ==> a == b
  {
    hide Conformant, RecordsSound, EntrySound, ComputedDecision, AuditSound, IsProjection, DecisionsSound, LastById, DistinctIds;
    ShuffledDecisions(intents, entries, shuffled);
    ShuffledDecisions(intents, shuffled, entries);
    if a.ok {
      SameAudits(intents, LastById(entries, EntryId), a.audits, b.audits);
      ProjectionIsUnique(graph.value, a.workflow.value, b.workflow.value);
      assert a.factWrites == b.factWrites;
    }
  }

  lemma SameAudits(intents: seq<Intent>, decisions: map<Id, Entry>, a: seq<AuditEvent>, b: seq<AuditEvent>)
    requires |a| == |b| == |intents|
    requires forall i :: 0 <= i < |intents| ==>
      && intents[i].id in decisions
      && AuditSound(intents[i], decisions[intents[i].id], a[i])
      && AuditSound(intents[i], decisions[intents[i].id], b[i])
    ensures a == b
  {
    hide ComputedDecision, Allows;
    forall i | 0 <= i < |intents| ensures a[i] == b[i] {
    }
  }

  lemma ShuffledDecisions(intents: seq<Intent>, entries: seq<Entry>, shuffled: seq<Entry>)
    requires multiset(entries) == multiset(shuffled)
    ensures DecisionsSound(intents, entries) ==> DecisionsSound(intents, shuffled)
    ensures DecisionsSound(intents, entries) ==> LastById(entries, EntryId) == LastById(shuffled, EntryId)
  {
    hide EntrySound;
    if DecisionsSound(intents, entries) {
      SameEntries(entries, shuffled);
      ShuffledDistinct(entries, shuffled);
      ShuffledLast(entries, shuffled);
    }
  }

  lemma SameEntries(entries: seq<Entry>, shuffled: seq<Entry>)
    requires multiset(entries) == multiset(shuffled)
    ensures forall entry :: entry in entries <==> entry in shuffled
  {
    forall entry ensures entry in entries <==> entry in shuffled {
      assert entry in multiset(entries) <==> entry in multiset(shuffled);
    }
  }

  lemma ShuffledDistinct(entries: seq<Entry>, shuffled: seq<Entry>)
    requires multiset(entries) == multiset(shuffled)
    requires DistinctIds(entries, EntryId)
    ensures DistinctIds(shuffled, EntryId)
  {
    forall i, j | 0 <= i < j < |shuffled| ensures EntryId(shuffled[i]) != EntryId(shuffled[j]) {
      SameEntries(entries, shuffled);
      var a, b := shuffled[i], shuffled[j];
      assert a in shuffled && b in shuffled;
      if a == b {
        DistinctNoRepeats(entries, EntryId);
        OccursOnce(entries, a);
        assert shuffled[..j][i] == b;
        OccursTwice(shuffled, j);
        assert false;
      }
      var m :| 0 <= m < |entries| && entries[m] == a;
      var n :| 0 <= n < |entries| && entries[n] == b;
    }
  }

  lemma ShuffledLast(entries: seq<Entry>, shuffled: seq<Entry>)
    requires DistinctIds(entries, EntryId) && DistinctIds(shuffled, EntryId)
    requires forall entry :: entry in entries <==> entry in shuffled
    ensures LastById(entries, EntryId) == LastById(shuffled, EntryId)
  {
    var a, b := LastById(entries, EntryId), LastById(shuffled, EntryId);
    IdsAll(entries, EntryId);
    IdsAll(shuffled, EntryId);
    assert a.Keys == b.Keys;
    forall id | id in a ensures a[id] == b[id] {
      var entry :| entry in entries && EntryId(entry) == id;
      OnlyWithId(entries, EntryId, entry);
      OnlyWithId(shuffled, EntryId, entry);
    }
  }
}
