/** The records collected around a task graph. */
module FieldRecords {
  import opened Records
  import opened Writeback

  datatype GapStatus = Open | Collecting | EvidenceSubmitted | Closed | WaivedGap | Expired

  datatype Gap = Gap(id: Id, taskId: Id, status: GapStatus, closedBy: seq<Id>, wellFormed: bool)

  datatype Evidence = Evidence(id: Id, taskId: Option<Id>, gapId: Option<Id>, opportunityId: Option<Id>, wellFormed: bool)

  datatype Mirror = Mirror(id: Id, wellFormed: bool)

  datatype GateCheck = GateCheck(id: Id, evidenceIds: seq<Id>, gapIds: seq<Id>, wellFormed: bool)

  datatype AgentOutput = AgentOutput(id: Id, wellFormed: bool)

  datatype ExecutionTask = ExecutionTask(id: Id, evidenceIds: seq<Id>)

  datatype ExecutionUpdate = ExecutionUpdate(id: Id, evidenceIds: seq<Id>)

  datatype Management = Management(tasks: seq<ExecutionTask>, updates: seq<ExecutionUpdate>, wellFormed: bool)

  /** The policy's recommendation for an intent, and the final decision if one was taken. */
  datatype Entry = Entry(intentId: Id, recommendation: PolicyResult, finalDecision: Option<PolicyResult>)

  function GapId(gap: Gap): Id { gap.id }

  function EvidenceId(item: Evidence): Id { item.id }

  function IntentId(intent: Intent): Id { intent.id }

  function EntryId(entry: Entry): Id { entry.intentId }

  datatype Finding =
    | MissingGraph
    | InvalidGraph
    | InvalidRecord(id: Id)
    | DuplicateId(id: Id)
    | UnknownTask(id: Id)
    | UnknownGap(id: Id, ref: Id)
    | UnknownEvidence(id: Id, ref: Id)
    | UnknownMirror(id: Id, ref: Id)
    | WrongTask(id: Id, ref: Id)
    | WrongGap(id: Id, ref: Id)
    | WrongOpportunity(id: Id, ref: Id)
    | DuplicateDecision(id: Id)
    | UnknownIntent(id: Id)
    | MissingDecision(id: Id)
    | WrongRecommendation(id: Id)
    | TooPermissive(id: Id)
}
