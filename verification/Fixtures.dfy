/** The fixture validator: the same records checked by a second, separately written set of rules. Records
    are found by searching for the first one with an id. */
module Fixtures {
  import opened Records
  import opened Contract
  import opened Writeback
  import opened FieldRecords

  datatype FixtureState = FixtureState(
    graph: TaskGraph,
    gaps: seq<Gap>,
    evidence: seq<Evidence>,
    gateChecks: seq<GateCheck>,
    mirrors: seq<Mirror>,
    intents: seq<Intent>,
    agentOutputs: seq<AgentOutput>,
    management: Management)

  function FindGap(state: FixtureState, id: Id): Option<Gap> { FirstById(state.gaps, GapId, id) }

  function FindEvidence(state: FixtureState, id: Id): Option<Evidence> { FirstById(state.evidence, EvidenceId, id) }

  function MirrorIds(state: FixtureState): set<Id> {
    set mirror | mirror in state.mirrors :: mirror.id
  }

  // ----- what the fixture rules demand -----

  /** If the evidence answers a gap that can be found, that gap is about the task. */
  ghost predicate AnswersGapOf(state: FixtureState, item: Evidence, task: Id) {
    item.gapId.Some? ==> (FindGap(state, item.gapId.value).Some? ==> FindGap(state, item.gapId.value).value.taskId == task)
  }

  ghost predicate OpportunityAgrees(state: FixtureState, item: Evidence) {
    match (state.graph.opportunityId, item.opportunityId)
    case (Some(expected), Some(actual)) => actual == expected
    case _ => true
  }

  ghost predicate OwnedBy(state: FixtureState, item: Evidence, task: Id) {
    (item.taskId.Some? ==> item.taskId.value == task) && AnswersGapOf(state, item, task)
  }

  ghost predicate TaskEvidenceFits(state: FixtureState, task: Id, id: Id) {
    var found := FindEvidence(state, id);
    found.Some? && OwnedBy(state, found.value, task) && OpportunityAgrees(state, found.value)
  }

  ghost predicate TaskFits(state: FixtureState, task: Task) {
    && (forall id :: id in task.gapIds ==> FindGap(state, id).Some?)
    && (forall id :: id in task.evidenceIds ==> TaskEvidenceFits(state, task.id, id))
  }

  ghost predicate MirrorsFit(state: FixtureState, task: Task) {
    forall id :: id in task.mirrorIds ==> id in MirrorIds(state)
  }

  ghost predicate ClosingEvidenceFits(state: FixtureState, gap: Gap, id: Id) {
    var found := FindEvidence(state, id);
    && found.Some?
    && (found.value.taskId.Some? ==> found.value.taskId.value == gap.taskId)
    && (found.value.gapId.Some? ==> found.value.gapId.value == gap.id)
  }

  ghost predicate KnownTask(state: FixtureState, id: Id) {
    exists task :: task in state.graph.tasks && task.id == id
  }

  ghost predicate GapFits(state: FixtureState, gap: Gap) {
    KnownTask(state, gap.taskId) && forall id :: id in gap.closedBy ==> ClosingEvidenceFits(state, gap, id)
  }

  ghost predicate EvidenceFits(state: FixtureState, item: Evidence) {
    && (item.taskId.Some? ==> KnownTask(state, item.taskId.value))
    && (item.gapId.Some? ==> FindGap(state, item.gapId.value).Some?)
    && (item.gapId.Some? && item.taskId.Some? ==> AnswersGapOf(state, item, item.taskId.value))
  }

  ghost predicate SourceFits(state: FixtureState, intent: Intent, id: Id) {
    var found := FindEvidence(state, id);
    && found.Some?
    && (intent.taskId.Some? ==> found.value.taskId == intent.taskId && AnswersGapOf(state, found.value, intent.taskId.value))
    && OpportunityAgrees(state, found.value)
  }

  ghost predicate IntentFits(state: FixtureState, intent: Intent) {
    && (intent.taskId.Some? ==> KnownTask(state, intent.taskId.value))
    && forall id :: id in intent.evidenceIds ==> SourceFits(state, intent, id)
  }

  ghost predicate GateCheckFits(state: FixtureState, check: GateCheck) {
    && (forall id :: id in check.evidenceIds ==> FindEvidence(state, id).Some?)
    && (forall id :: id in check.gapIds ==> FindGap(state, id).Some?)
  }

  ghost predicate ExecutionTaskFits(state: FixtureState, task: ExecutionTask) {
    forall id :: id in task.evidenceIds ==>
      FindEvidence(state, id).Some? && OwnedBy(state, FindEvidence(state, id).value, task.id)
  }

  ghost predicate ExecutionUpdateFits(state: FixtureState, update: ExecutionUpdate) {
    forall id :: id in update.evidenceIds ==> FindEvidence(state, id).Some?
  }

  /** The rules about the records around the graph that the bridge reads too. */
  ghost predicate CoreRules(state: FixtureState) {
    && (forall gap :: gap in state.gaps ==> gap.wellFormed && GapFits(state, gap))
    && (forall item :: item in state.evidence ==> item.wellFormed && EvidenceFits(state, item))
    && (forall intent :: intent in state.intents ==> IntentConformant(intent) && IntentFits(state, intent))
    && (forall task :: task in state.graph.tasks ==> TaskFits(state, task))
  }

  ghost predicate CoreSound(state: FixtureState) {
    Conformant(state.graph) && CoreRules(state)
  }

  /** The rules about everything else. */
  ghost predicate RestSound(state: FixtureState) {
    && (forall task :: task in state.graph.tasks ==> MirrorsFit(state, task))
    && (forall check :: check in state.gateChecks ==> check.wellFormed && GateCheckFits(state, check))
    && (forall mirror :: mirror in state.mirrors ==> mirror.wellFormed)
    && (forall output :: output in state.agentOutputs ==> output.wellFormed)
    && state.management.wellFormed
    && (forall task :: task in state.management.tasks ==> ExecutionTaskFits(state, task))
    && (forall update :: update in state.management.updates ==> ExecutionUpdateFits(state, update))
  }

  // ----- the checks -----

  function GapFindings(state: FixtureState, item: Evidence, task: Id): (r: seq<Finding>)
    ensures r == [] <==> AnswersGapOf(state, item, task)
  {
    if item.gapId.None? then []
    else
      match FindGap(state, item.gapId.value)
      case Some(gap) => if gap.taskId != task then [WrongGap(task, item.id)] else []
      case None => []
  }

  function OwnerFindings(state: FixtureState, item: Evidence, task: Id): (r: seq<Finding>)
    ensures r == [] <==> OwnedBy(state, item, task)
  {
    (if item.taskId.Some? && item.taskId.value != task then [WrongTask(task, item.id)] else [])
    + GapFindings(state, item, task)
  }

  function OpportunityIssues(state: FixtureState, item: Evidence, owner: Id): (r: seq<Finding>)
    ensures r == [] <==> OpportunityAgrees(state, item)
  {
    match (state.graph.opportunityId, item.opportunityId)
    case (Some(expected), Some(actual)) => if actual != expected then [WrongOpportunity(owner, item.id)] else []
    case _ => []
  }

  method TaskReferences(state: FixtureState, task: Task, mirrorIds: set<Id>) returns (issues: seq<Finding>)
    requires mirrorIds == MirrorIds(state)
    ensures issues == [] <==> TaskFits(state, task) && MirrorsFit(state, task)
  {
    hide TaskEvidenceFits, FindGap, FindEvidence, MirrorIds;
    issues := [];
    for i := 0 to |task.gapIds|
      invariant issues == [] <==> forall j :: 0 <= j < i ==> FindGap(state, task.gapIds[j]).Some?
    {
      if FindGap(state, task.gapIds[i]).None? {
        issues := issues + [UnknownGap(task.id, task.gapIds[i])];
      }
    }
    ghost var before := issues;
    for i := 0 to |task.evidenceIds|
      invariant issues == [] <==>
                before == [] && forall j :: 0 <= j < i ==> TaskEvidenceFits(state, task.id, task.evidenceIds[j])
    {
      var own := TaskEvidenceIssues(state, task.id, task.evidenceIds[i]);
      issues := issues + own;
    }
    before := issues;
    for i := 0 to |task.mirrorIds|
      invariant issues == [] <==> before == [] && forall j :: 0 <= j < i ==> task.mirrorIds[j] in mirrorIds
    {
      if task.mirrorIds[i] !in mirrorIds {
        issues := issues + [UnknownMirror(task.id, task.mirrorIds[i])];
      }
    }
  }

  method TaskEvidenceIssues(state: FixtureState, task: Id, id: Id) returns (issues: seq<Finding>)
    ensures issues == [] <==> TaskEvidenceFits(state, task, id)
  {
    hide OwnedBy, OpportunityAgrees;
    match FindEvidence(state, id) {
      case None => issues := [UnknownEvidence(task, id)];
      case Some(item) => issues := OwnerFindings(state, item, task) + OpportunityIssues(state, item, task);
    }
  }

  method GapReferences(state: FixtureState, taskIds: set<Id>, gap: Gap) returns (issues: seq<Finding>)
    requires forall id :: id in taskIds <==> KnownTask(state, id)
    ensures issues == [] <==> GapFits(state, gap)
  {
    hide KnownTask, ClosingEvidenceFits;
    issues := [];
    if gap.taskId !in taskIds {
      issues := issues + [UnknownTask(gap.id)];
    }
    ghost var before := issues;
    for i := 0 to |gap.closedBy|
      invariant issues == [] <==> before == [] && forall j :: 0 <= j < i ==> ClosingEvidenceFits(state, gap, gap.closedBy[j])
    {
      var own := ClosingIssues(state, gap, gap.closedBy[i]);
      issues := issues + own;
    }
  }

  method ClosingIssues(state: FixtureState, gap: Gap, id: Id) returns (issues: seq<Finding>)
    ensures issues == [] <==> ClosingEvidenceFits(state, gap, id)
  {
    issues := [];
    match FindEvidence(state, id) {
      case None => issues := [UnknownEvidence(gap.id, id)];
      case Some(item) =>
        if item.taskId.Some? && item.taskId.value != gap.taskId {
          issues := issues + [WrongTask(gap.id, id)];
        }
        if item.gapId.Some? && item.gapId.value != gap.id {
          issues := issues + [WrongGap(gap.id, id)];
        }
    }
  }

  method EvidenceReferences(state: FixtureState, taskIds: set<Id>, item: Evidence) returns (issues: seq<Finding>)
    requires forall id :: id in taskIds <==> KnownTask(state, id)
    ensures issues == [] <==> EvidenceFits(state, item)
  {
    hide KnownTask, FindGap;
    issues := [];
    if item.taskId.Some? && item.taskId.value !in taskIds {
      issues := issues + [UnknownTask(item.id)];
    }
    if item.gapId.Some? {
      if FindGap(state, item.gapId.value).None? {
        issues := issues + [UnknownGap(item.id, item.gapId.value)];
      } else if item.taskId.Some? {
        issues := issues + GapFindings(state, item, item.taskId.value);
      }
    }
  }

  method IntentReferences(state: FixtureState, taskIds: set<Id>, intent: Intent) returns (issues: seq<Finding>)
    requires forall id :: id in taskIds <==> KnownTask(state, id)
    ensures issues == [] <==> IntentFits(state, intent)
  {
    hide KnownTask, SourceFits;
    issues := [];
    if intent.taskId.Some? && intent.taskId.value !in taskIds {
      issues := issues + [UnknownTask(intent.id)];
    }
    ghost var before := issues;
    for i := 0 to |intent.evidenceIds|
      invariant issues == [] <==> before == [] && forall j :: 0 <= j < i ==> SourceFits(state, intent, intent.evidenceIds[j])
    {
      var own := SourceIssues(state, intent, intent.evidenceIds[i]);
      issues := issues + own;
    }
  }

  method SourceIssues(state: FixtureState, intent: Intent, id: Id) returns (issues: seq<Finding>)
    ensures issues == [] <==> SourceFits(state, intent, id)
  {
    hide AnswersGapOf, OpportunityAgrees;
    issues := [];
    match FindEvidence(state, id) {
      case None => issues := [UnknownEvidence(intent.id, id)];
      case Some(item) =>
        if intent.taskId.Some? {
          if item.taskId != intent.taskId {
            issues := issues + [WrongTask(intent.id, id)];
          }
          issues := issues + GapFindings(state, item, intent.taskId.value);
        }
        issues := issues + OpportunityIssues(state, item, intent.id);
    }
  }

  method KnownEvidenceIssues(state: FixtureState, owner: Id, ids: seq<Id>) returns (issues: seq<Finding>)
    ensures issues == [] <==> forall id :: id in ids ==> FindEvidence(state, id).Some?
  {
    hide FindEvidence;
    issues := [];
    for i := 0 to |ids|
      invariant issues == [] <==> forall j :: 0 <= j < i ==> FindEvidence(state, ids[j]).Some?
    {
      if FindEvidence(state, ids[i]).None? {
        issues := issues + [UnknownEvidence(owner, ids[i])];
      }
    }
  }

  method GateCheckReferences(state: FixtureState, check: GateCheck) returns (issues: seq<Finding>)
    ensures issues == [] <==> GateCheckFits(state, check)
  {
    hide FindEvidence, FindGap;
    issues := KnownEvidenceIssues(state, check.id, check.evidenceIds);
    ghost var before := issues;
    for i := 0 to |check.gapIds|
      invariant issues == [] <==> before == [] && forall j :: 0 <= j < i ==> FindGap(state, check.gapIds[j]).Some?
    {
      if FindGap(state, check.gapIds[i]).None? {
        issues := issues + [UnknownGap(check.id, check.gapIds[i])];
      }
    }
  }

  method ExecutionTaskReferences(state: FixtureState, task: ExecutionTask) returns (issues: seq<Finding>)
    ensures issues == [] <==> ExecutionTaskFits(state, task)
  {
    hide FindEvidence, OwnedBy;
    issues := [];
    for i := 0 to |task.evidenceIds|
      invariant issues == [] <==> forall j :: 0 <= j < i ==>
                  FindEvidence(state, task.evidenceIds[j]).Some? &&
                  OwnedBy(state, FindEvidence(state, task.evidenceIds[j]).value, task.id)
    {
      var id := task.evidenceIds[i];
      match FindEvidence(state, id) {
        case None => issues := issues + [UnknownEvidence(task.id, id)];
        case Some(item) => issues := issues + OwnerFindings(state, item, task.id);
      }
    }
  }

  lemma FoundIds(state: FixtureState)
    ensures forall id :: id in Ids(state.graph.tasks, TaskId) <==> KnownTask(state, id)
  {
    assert forall task: Task :: TaskId(task) == task.id;
  }

  /** The references between all records. */
  ghost predicate ReferencesFit(state: FixtureState) {
    && (forall task :: task in state.graph.tasks ==> TaskFits(state, task) && MirrorsFit(state, task))
    && (forall gap :: gap in state.gaps ==> GapFits(state, gap))
    && (forall item :: item in state.evidence ==> EvidenceFits(state, item))
    && (forall check :: check in state.gateChecks ==> GateCheckFits(state, check))
    && (forall intent :: intent in state.intents ==> IntentFits(state, intent))
    && (forall task :: task in state.management.tasks ==> ExecutionTaskFits(state, task))
    && (forall update :: update in state.management.updates ==> ExecutionUpdateFits(state, update))
  }

  method FixtureReferences(state: FixtureState) returns (issues: seq<Finding>)
    ensures issues == [] <==> ReferencesFit(state)
  {
    hide TaskFits, MirrorsFit, GapFits, EvidenceFits, GateCheckFits, IntentFits, ExecutionTaskFits, KnownTask, Ids, MirrorIds;
    var taskIds, mirrorIds := Ids(state.graph.tasks, TaskId), MirrorIds(state);
    FoundIds(state);
    issues := [];
    var tasks := state.graph.tasks;
    for i := 0 to |tasks|
      invariant issues == [] <==> forall j :: 0 <= j < i ==> TaskFits(state, tasks[j]) && MirrorsFit(state, tasks[j])
    {
      var own := TaskReferences(state, tasks[i], mirrorIds);
      issues := issues + own;
    }
    assert forall j :: 0 <= j < |tasks| ==> tasks[j] in tasks;
    var more := RecordReferences(state, taskIds);
    var last := ManagementReferences(state);
    issues := issues + more + last;
  }

  method RecordReferences(state: FixtureState, taskIds: set<Id>) returns (issues: seq<Finding>)
    requires forall id :: id in taskIds <==> KnownTask(state, id)
    ensures issues == [] <==>
      && (forall gap :: gap in state.gaps ==> GapFits(state, gap))
      && (forall item :: item in state.evidence ==> EvidenceFits(state, item))
      && (forall check :: check in state.gateChecks ==> GateCheckFits(state, check))
      && (forall intent :: intent in state.intents ==> IntentFits(state, intent))
  {
    hide GapFits, EvidenceFits, GateCheckFits, IntentFits, KnownTask;
    issues := [];
    for i := 0 to |state.gaps|
      invariant issues == [] <==> forall j :: 0 <= j < i ==> GapFits(state, state.gaps[j])
    {
      var own := GapReferences(state, taskIds, state.gaps[i]);
      issues := issues + own;
    }
    assert forall j :: 0 <= j < |state.gaps| ==> state.gaps[j] in state.gaps;
    ghost var before := issues;
    for i := 0 to |state.evidence|
      invariant issues == [] <==> before == [] && forall j :: 0 <= j < i ==> EvidenceFits(state, state.evidence[j])
    {
      var own := EvidenceReferences(state, taskIds, state.evidence[i]);
      issues := issues + own;
    }
    assert forall j :: 0 <= j < |state.evidence| ==> state.evidence[j] in state.evidence;
    before := issues;
    for i := 0 to |state.gateChecks|
      invariant issues == [] <==> before == [] && forall j :: 0 <= j < i ==> GateCheckFits(state, state.gateChecks[j])
    {
      var own := GateCheckReferences(state, state.gateChecks[i]);
      issues := issues + own;
    }
    assert forall j :: 0 <= j < |state.gateChecks| ==> state.gateChecks[j] in state.gateChecks;
    before := issues;
    for i := 0 to |state.intents|
      invariant issues == [] <==> before == [] && forall j :: 0 <= j < i ==> IntentFits(state, state.intents[j])
    {
      var own := IntentReferences(state, taskIds, state.intents[i]);
      issues := issues + own;
    }
    assert forall j :: 0 <= j < |state.intents| ==> state.intents[j] in state.intents;
  }

  method ManagementReferences(state: FixtureState) returns (issues: seq<Finding>)
    ensures issues == [] <==>
      && (forall task :: task in state.management.tasks ==> ExecutionTaskFits(state, task))
      && (forall update :: update in state.management.updates ==> ExecutionUpdateFits(state, update))
  {
    hide ExecutionTaskFits, FindEvidence;
    var tasks, updates := state.management.tasks, state.management.updates;
    issues := [];
    for i := 0 to |tasks|
      invariant issues == [] <==> forall j :: 0 <= j < i ==> ExecutionTaskFits(state, tasks[j])
    {
      var own := ExecutionTaskReferences(state, tasks[i]);
      issues := issues + own;
    }
    assert forall j :: 0 <= j < |tasks| ==> tasks[j] in tasks;
    ghost var before := issues;
    for i := 0 to |updates|
      invariant issues == [] <==> before == [] && forall j :: 0 <= j < i ==> ExecutionUpdateFits(state, updates[j])
    {
      var own := KnownEvidenceIssues(state, updates[i].id, updates[i].evidenceIds);
      assert own == [] <==> ExecutionUpdateFits(state, updates[i]);
      issues := issues + own;
    }
    assert forall j :: 0 <= j < |updates| ==> updates[j] in updates;
  }

  function Malformations<T>(xs: seq<T>, key: T -> Id, wellFormed: T -> bool): (r: seq<Finding>)
    ensures r == [] <==> forall x :: x in xs ==> wellFormed(x)
  {
    if xs == [] then []
    else (if wellFormed(xs[0]) then [] else [InvalidRecord(key(xs[0]))]) + Malformations(xs[1..], key, wellFormed)
  }

  method IntentMalformations(intents: seq<Intent>) returns (issues: seq<Finding>)
    ensures issues == [] <==> forall intent :: intent in intents ==> IntentConformant(intent)
  {
    hide IntentConformant;
    issues := [];
    for i := 0 to |intents|
      invariant issues == [] <==> forall j :: 0 <= j < i ==> IntentConformant(intents[j])
    {
      var own := ValidateIntent(intents[i]);
      issues := issues + (if own == [] then [] else [InvalidRecord(intents[i].id)]);
    }
    assert forall j :: 0 <= j < |intents| ==> intents[j] in intents;
  }

  /** The records, apart from the graph and the intents, are well formed by themselves. */
  ghost predicate RecordsWellFormed(state: FixtureState) {
    && (forall gap :: gap in state.gaps ==> gap.wellFormed)
    && (forall item :: item in state.evidence ==> item.wellFormed)
    && (forall check :: check in state.gateChecks ==> check.wellFormed)
    && (forall mirror :: mirror in state.mirrors ==> mirror.wellFormed)
    && (forall output :: output in state.agentOutputs ==> output.wellFormed)
    && state.management.wellFormed
  }

  lemma AllRules(state: FixtureState)
    ensures CoreSound(state) && RestSound(state) <==>
              && Conformant(state.graph) && RecordsWellFormed(state) && ReferencesFit(state)
              && forall intent :: intent in state.intents ==> IntentConformant(intent)
  {
    hide Conformant, TaskFits, MirrorsFit, GapFits, EvidenceFits, GateCheckFits, IntentFits, ExecutionTaskFits,
      ExecutionUpdateFits, IntentConformant;
  }

  method RecordMalformations(state: FixtureState) returns (first: seq<Finding>, last: seq<Finding>)
    ensures first == [] && last == [] <==> RecordsWellFormed(state)
  {
    first := Malformations(state.gaps, GapId, (gap: Gap) => gap.wellFormed)
      + Malformations(state.evidence, EvidenceId, (item: Evidence) => item.wellFormed)
      + Malformations(state.gateChecks, (check: GateCheck) => check.id, (check: GateCheck) => check.wellFormed)
      + Malformations(state.mirrors, (mirror: Mirror) => mirror.id, (mirror: Mirror) => mirror.wellFormed);
    last := Malformations(state.agentOutputs, (output: AgentOutput) => output.id, (output: AgentOutput) => output.wellFormed)
      + (if state.management.wellFormed then [] else [InvalidRecord(Id("management"))]);
  }

  /** The fixture state passes exactly when every rule holds. */
  method ValidateFixtureState(state: FixtureState) returns (issues: seq<Finding>)
    ensures issues == [] <==> CoreSound(state) && RestSound(state)
  {
    hide Conformant, RecordsWellFormed, ReferencesFit, IntentConformant, CoreSound, RestSound;
    AllRules(state);
    var graphIssues := ValidateTaskGraph(state.graph);
    issues := if graphIssues == [] then [] else [InvalidGraph];
    var first, last := RecordMalformations(state);
    var intentIssues := IntentMalformations(state.intents);
    var references := FixtureReferences(state);
    issues := issues + first + intentIssues + last + references;
  }
}
