/** The policy for writing back to external systems. */
module Writeback {
  import opened Records

  datatype Json =
    | Null
    | Bool(flag: bool)
    | Number(amount: real)
    | Text(text: string)
    | Array(items: seq<Json>)
    | Object(fields: seq<Field>)

  datatype Field = Field(key: string, value: Json)

  datatype Risk = Low | Medium | High

  datatype Operation = CreateNote | CreateTask | CreateComment | AddLink | UpdateField | UpdateStatus

  datatype Decision = AutoExecute | NeedsConfirmation | Reject | ManualOnly

  datatype Reason = HighRisk | RiskyOperation | RiskyFields(keys: seq<string>) | MediumRisk | LowRiskOperation | NotAllowed

  datatype PolicyResult = PolicyResult(decision: Decision, reasons: seq<Reason>)

  datatype Intent = Intent(
    id: Id,
    operation: Operation,
    payload: Json,
    taskId: Option<Id>,
    evidenceIds: seq<Id>,
    risk: Risk,
    policyDecision: Decision,
    wellFormed: bool)

  // ----- the keys of a payload -----

  function PayloadKeys(v: Json): seq<string>
    decreases v
  {
    match v
    case Array(items) => ItemKeys(items)
    case Object(fields) => FieldKeys(fields)
    case _ => []
  }

  function ItemKeys(items: seq<Json>): seq<string>
    decreases items
  {
    if items == [] then []
    else ItemKeys(items[..|items| - 1]) + PayloadKeys(items[|items| - 1])
  }

  function FieldKeys(fields: seq<Field>): seq<string>
    decreases fields
  {
    if fields == [] then []
    else
      var last := fields[|fields| - 1];
      FieldKeys(fields[..|fields| - 1]) + [last.key] + PayloadKeys(last.value)
  }

  /** Going down the value by these child positions ends at a field with this key. */
  ghost predicate KeyAt(v: Json, path: seq<nat>, key: string)
    decreases path
  {
    && path != []
    && match v
       case Array(items) => path[0] < |items| && KeyAt(items[path[0]], path[1..], key)
       case Object(fields) =>
         path[0] < |fields| &&
         if |path| == 1 then fields[path[0]].key == key else KeyAt(fields[path[0]].value, path[1..], key)
       case _ => false
  }

  ghost predicate OccursIn(v: Json, key: string) {
    exists path :: KeyAt(v, path, key)
  }

  method FlattenPayloadKeys(v: Json) returns (keys: seq<string>)
    ensures keys == PayloadKeys(v)
    decreases v
  {
    keys := [];
    match v {
      case Array(items) =>
        for i := 0 to |items|
          invariant keys == ItemKeys(items[..i])
        {
          assert items[..i + 1][..i] == items[..i];
          var more := FlattenPayloadKeys(items[i]);
          keys := keys + more;
        }
        assert items[..|items|] == items;
      case Object(fields) =>
        for i := 0 to |fields|
          invariant keys == FieldKeys(fields[..i])
        {
          assert fields[..i + 1][..i] == fields[..i];
          keys := keys + [fields[i].key];
          if fields[i].value.Object? || fields[i].value.Array? {
            var more := FlattenPayloadKeys(fields[i].value);
            keys := keys + more;
          }
        }
        assert fields[..|fields|] == fields;
      case _ =>
    }
  }

  /** Flattening finds exactly the object keys that occur at any depth, through any nesting of arrays. */
  lemma {:induction false} KeysAtAnyDepth(v: Json, key: string)
    ensures key in PayloadKeys(v) <==> OccursIn(v, key)
    decreases v
  {
    match v {
      case Array(items) =>
        KeysOfItems(items, key);
        if key in PayloadKeys(v) {
          var i: nat :| i < |items| && OccursIn(items[i], key);
          var path :| KeyAt(items[i], path, key);
          assert ([i] + path)[1..] == path;
          assert KeyAt(v, [i] + path, key);
        }
        if OccursIn(v, key) {
          var path :| KeyAt(v, path, key);
          assert KeyAt(items[path[0]], path[1..], key);
        }
      case Object(fields) =>
        KeysOfFields(fields, key);
        if key in PayloadKeys(v) {
          var i: nat :| i < |fields| && FieldHas(fields[i], key);
          if fields[i].key == key {
            assert KeyAt(v, [i], key);
          } else {
            var path :| KeyAt(fields[i].value, path, key);
            assert ([i] + path)[1..] == path;
            assert KeyAt(v, [i] + path, key);
          }
        }
        if OccursIn(v, key) {
          var path :| KeyAt(v, path, key);
          assert fields[path[0]].key == key || KeyAt(fields[path[0]].value, path[1..], key);
          assert FieldHas(fields[path[0]], key);
        }
      case _ =>
    }
  }

  lemma {:induction false} KeysOfItems(items: seq<Json>, key: string)
    ensures key in ItemKeys(items) <==> exists i: nat :: i < |items| && OccursIn(items[i], key)
    decreases items
  {
    hide OccursIn, PayloadKeys;
    if items != [] {
      var n := |items| - 1;
      var rest, last := items[..n], items[n];
      KeysOfItems(rest, key);
      KeysAtAnyDepth(last, key);
      assert key in ItemKeys(items) <==> key in ItemKeys(rest) || key in PayloadKeys(last);
      if key in ItemKeys(rest) {
        var i: nat :| i < n && OccursIn(rest[i], key);
        assert items[i] == rest[i];
      }
      if i: nat :| i < |items| && OccursIn(items[i], key) {
        assert i < n ==> OccursIn(rest[i], key);
      }
    }
  }

  ghost predicate FieldHas(field: Field, key: string) {
    field.key == key || OccursIn(field.value, key)
  }

  lemma {:induction false} KeysOfFields(fields: seq<Field>, key: string)
    ensures key in FieldKeys(fields) <==> exists i: nat :: i < |fields| && FieldHas(fields[i], key)
    decreases fields
  {
    if fields != [] {
      hide FieldHas, FieldKeys;
      var n := |fields| - 1;
      var rest, last := fields[..n], fields[n];
      KeysOfFields(rest, key);
      LastField(fields, key);
      if key in FieldKeys(rest) {
        var i: nat :| i < n && FieldHas(rest[i], key);
        assert fields[i] == rest[i];
      }
      if i: nat :| i < |fields| && FieldHas(fields[i], key) {
        assert i < n ==> FieldHas(rest[i], key);
      }
    }
  }

  lemma LastField(fields: seq<Field>, key: string)
    requires fields != []
    ensures var n := |fields| - 1;
            key in FieldKeys(fields) <==> key in FieldKeys(fields[..n]) || FieldHas(fields[n], key)
    decreases fields, 0
  {
    hide OccursIn, PayloadKeys;
    KeysAtAnyDepth(fields[|fields| - 1].value, key);
  }

  // ----- the decision -----

  const RISKY_FIELDS: set<string> :=
    {"amount", "stage", "expected_close_date", "close_date", "status", "assignee", "due_date", "priority", "owner", "budget"}

  predicate Creates(operation: Operation) {
    operation.CreateNote? || operation.CreateTask? || operation.CreateComment? || operation.AddLink?
  }

  ghost predicate TouchesRiskyField(payload: Json) {
    exists key :: key in RISKY_FIELDS && OccursIn(payload, key)
  }

  lemma RiskyKeysFound(payload: Json, risky: seq<string>)
    requires risky == RiskyAmong(PayloadKeys(payload))
    ensures risky == [] <==> !TouchesRiskyField(payload)
    ensures forall key :: key in risky <==> key in RISKY_FIELDS && OccursIn(payload, key)
  {
    forall key ensures key in risky <==> key in RISKY_FIELDS && OccursIn(payload, key) {
      KeysAtAnyDepth(payload, key);
    }
    if risky != [] {
      assert risky[0] in risky;
    }
  }

  /** Low risk, an operation that only adds, and no risky key anywhere in the payload. */
  ghost predicate SafeToAutomate(intent: Intent) {
    intent.risk == Low && Creates(intent.operation) && !TouchesRiskyField(intent.payload)
  }

  ghost function ComputedDecision(intent: Intent): Decision {
    if SafeToAutomate(intent) then AutoExecute else NeedsConfirmation
  }

  predicate RiskyKey(key: string) {
    key in RISKY_FIELDS
  }

  function RiskyAmong(keys: seq<string>): (risky: seq<string>)
    ensures forall key :: key in risky <==> key in keys && RiskyKey(key)
  {
    if keys == [] then []
    else (if RiskyKey(keys[0]) then [keys[0]] else []) + RiskyAmong(keys[1..])
  }

  lemma RiskyFirst(key: string, rest: seq<string>)
    ensures RiskyAmong([key] + rest) == (if RiskyKey(key) then [key] else []) + RiskyAmong(rest)
  {
    hide RiskyKey;
    assert ([key] + rest)[1..] == rest;
  }

  /** The risky keys are picked out key by key, in order and each as often as it occurs. */
  lemma {:induction false} RiskyKeysJoin(a: seq<string>, b: seq<string>)
    ensures RiskyAmong(a + b) == RiskyAmong(a) + RiskyAmong(b)
  {
    hide RiskyKey, RiskyAmong;
    if a == [] {
      assert a + b == b;
      NothingRisky();
    } else {
      RiskyKeysJoin(a[1..], b);
      RiskyFirst(a[0], a[1..] + b);
      RiskyFirst(a[0], a[1..]);
      assert a == [a[0]] + a[1..] && a + b == [a[0]] + (a[1..] + b);
    }
  }

  lemma NothingRisky()
    ensures RiskyAmong([]) == []
  {
  }

  lemma RiskyKeyAlone(key: string)
    ensures RiskyAmong([key]) ==
              if key in {"amount", "stage", "expected_close_date", "close_date", "status", "assignee", "due_date",
                         "priority", "owner", "budget"} then [key] else []
  {
    assert [key][1..] == [];
  }

  /** The reason given is true of the intent, and the risky keys are all there are. */
  ghost predicate ReasonHolds(intent: Intent, reason: Reason) {
    match reason
    case HighRisk => intent.risk == High
    case RiskyOperation => !Creates(intent.operation)
    case RiskyFields(keys) => keys != [] && forall key :: key in keys <==> key in RISKY_FIELDS && OccursIn(intent.payload, key)
    case MediumRisk => intent.risk == Medium
    case LowRiskOperation => SafeToAutomate(intent)
    case NotAllowed => false
  }

  /** The policy executes automatically exactly what is safe to automate, and asks for confirmation of
      everything else. It names no other decision. */
  method DecideWritebackPolicy(intent: Intent) returns (r: PolicyResult)
    ensures r.decision == ComputedDecision(intent)
    ensures |r.reasons| == 1 && ReasonHolds(intent, r.reasons[0])
  {
    if intent.risk == High {
      return PolicyResult(NeedsConfirmation, [HighRisk]);
    }
    if intent.operation.UpdateField? || intent.operation.UpdateStatus? {
      return PolicyResult(NeedsConfirmation, [RiskyOperation]);
    }
    var keys := FlattenPayloadKeys(intent.payload);
    var risky := RiskyAmong(keys);
    RiskyKeysFound(intent.payload, risky);
    if risky != [] {
      return PolicyResult(NeedsConfirmation, [RiskyFields(risky)]);
    }
    if intent.risk == Medium {
      return PolicyResult(NeedsConfirmation, [MediumRisk]);
    }
    r := if Creates(intent.operation) then PolicyResult(AutoExecute, [LowRiskOperation])
         else PolicyResult(ManualOnly, [NotAllowed]);
  }

  /** A key of the payload, at any depth, that is one of these, always needs confirmation. */
  lemma RiskyKeysNeedConfirmation(intent: Intent, path: seq<nat>, key: string)
    requires KeyAt(intent.payload, path, key)
    requires || key == "amount" || key == "stage" || key == "expected_close_date" || key == "close_date"
             || key == "status" || key == "assignee" || key == "due_date" || key == "priority"
             || key == "owner" || key == "budget"
    ensures ComputedDecision(intent) == NeedsConfirmation
  {
    hide KeyAt;
    assert OccursIn(intent.payload, key);
  }

  /** The payload has none of these keys at any depth. */
  ghost predicate HarmlessPayload(payload: Json) {
    forall path, key :: KeyAt(payload, path, key) ==>
      && key != "amount" && key != "stage" && key != "expected_close_date" && key != "close_date"
      && key != "status" && key != "assignee" && key != "due_date" && key != "priority"
      && key != "owner" && key != "budget"
  }

  lemma HarmlessTouchesNothing(payload: Json)
    ensures HarmlessPayload(payload) <==> !TouchesRiskyField(payload)
  {
    hide KeyAt;
    if TouchesRiskyField(payload) {
      var key :| key in RISKY_FIELDS && OccursIn(payload, key);
      var path :| KeyAt(payload, path, key);
    } else {
      forall path, key | KeyAt(payload, path, key) ensures key !in RISKY_FIELDS {
        assert OccursIn(payload, key);
      }
    }
  }

  /** No other key does: a low-risk note, task, comment or link without these keys is executed automatically, and
      nothing else is. */
  lemma AutomaticExactlyWhenHarmless(intent: Intent)
    ensures ComputedDecision(intent) == AutoExecute <==>
              && intent.risk == Low && HarmlessPayload(intent.payload)
              && (intent.operation == CreateNote || intent.operation == CreateTask || intent.operation == CreateComment
                  || intent.operation == AddLink)
    ensures ComputedDecision(intent) == AutoExecute || ComputedDecision(intent) == NeedsConfirmation
    ensures intent.operation == UpdateField || intent.operation == UpdateStatus ==> ComputedDecision(intent) == NeedsConfirmation
  {
    hide HarmlessPayload, TouchesRiskyField;
    HarmlessTouchesNothing(intent.payload);
  }

  // ----- comparing decisions -----

  function Rank(decision: Decision): nat {
    match decision
    case AutoExecute => 0
    case NeedsConfirmation => 1
    case ManualOnly => 2
    case Reject => 3
  }

  /** The stored decision is no more permissive than the required one. */
  predicate Allows(stored: Decision, required: Decision) {
    Rank(stored) >= Rank(required)
  }

  /** The sixteen pairs: everything is at least as strict as automatic execution, rejection as everything, and manual
      work stands between confirmation and rejection. */
  lemma AllowsTable(stored: Decision)
    ensures Allows(stored, AutoExecute)
    ensures Allows(stored, NeedsConfirmation) <==> stored != AutoExecute
    ensures Allows(stored, ManualOnly) <==> stored == ManualOnly || stored == Reject
    ensures Allows(stored, Reject) <==> stored == Reject
  {
  }

  function RiskRank(risk: Risk): nat {
    match risk
    case Low => 0
    case Medium => 1
    case High => 2
  }

  /** `big` has everything `small` has, perhaps with more fields and array items around it. */
  ghost predicate Embeds(small: Json, big: Json)
    decreases small
  {
    match small
    case Array(items) => big.Array? && forall x :: x in items ==> exists y :: y in big.items && Embeds(x, y)
    case Object(fields) =>
      big.Object? && forall f :: f in fields ==> exists g :: g in big.fields && g.key == f.key && Embeds(f.value, g.value)
    case _ => true
  }

  lemma {:induction false} EmbeddingKeepsKeys(small: Json, big: Json, path: seq<nat>, key: string)
    requires Embeds(small, big) && KeyAt(small, path, key)
    ensures OccursIn(big, key)
    decreases path
  {
    match small {
      case Array(items) =>
        var x := items[path[0]];
        assert x in items;
        var y :| y in big.items && Embeds(x, y);
        var j: nat :| j < |big.items| && big.items[j] == y;
        EmbeddingKeepsKeys(x, y, path[1..], key);
        var rest :| KeyAt(y, rest, key);
        assert ([j] + rest)[1..] == rest;
        assert KeyAt(big, [j] + rest, key);
      case Object(fields) =>
        var f := fields[path[0]];
        assert f in fields;
        var g :| g in big.fields && g.key == f.key && Embeds(f.value, g.value);
        var j: nat :| j < |big.fields| && big.fields[j] == g;
        if |path| == 1 {
          assert KeyAt(big, [j], key);
        } else {
          EmbeddingKeepsKeys(f.value, g.value, path[1..], key);
          var rest :| KeyAt(g.value, rest, key);
          assert ([j] + rest)[1..] == rest;
          assert KeyAt(big, [j] + rest, key);
        }
      case _ =>
    }
  }

  /** Raising the risk or enlarging the payload never makes the policy more permissive. */
  lemma PolicyIsMonotone(a: Intent, b: Intent)
    requires a.operation == b.operation
    requires RiskRank(a.risk) <= RiskRank(b.risk) && Embeds(a.payload, b.payload)
    ensures Allows(ComputedDecision(b), ComputedDecision(a))
  {
    if SafeToAutomate(b) {
      if TouchesRiskyField(a.payload) {
        var key :| key in RISKY_FIELDS && OccursIn(a.payload, key);
        var path :| KeyAt(a.payload, path, key);
        EmbeddingKeepsKeys(a.payload, b.payload, path, key);
      }
    }
  }

  // ----- validating an intent -----

  datatype IntentIssue = MalformedIntent | HighRiskAutoExecute | StatusUpdateAutoExecute | MorePermissiveThanPolicy(computed: Decision)

  /** A well-formed intent whose stored decision is no more permissive than the policy. */
  ghost predicate IntentConformant(intent: Intent) {
    intent.wellFormed && Allows(intent.policyDecision, ComputedDecision(intent))
  }

  /** Each complaint is made exactly when it is true, and nothing else is complained about. The two extra checks against
      automatic execution never refuse an intent that the policy lets pass. */
  method ValidateIntent(intent: Intent) returns (issues: seq<IntentIssue>)
    ensures issues == [] <==> IntentConformant(intent)
    ensures MalformedIntent in issues <==> !intent.wellFormed
    ensures HighRiskAutoExecute in issues <==> intent.risk == High && intent.policyDecision == AutoExecute
    ensures StatusUpdateAutoExecute in issues <==> intent.operation == UpdateStatus && intent.policyDecision == AutoExecute
    ensures forall x :: x in issues && x.MorePermissiveThanPolicy? ==> x.computed == ComputedDecision(intent)
    ensures MorePermissiveThanPolicy(ComputedDecision(intent)) in issues <==>
              !Allows(intent.policyDecision, ComputedDecision(intent))
    ensures forall x :: x in issues && (x.HighRiskAutoExecute? || x.StatusUpdateAutoExecute?) ==>
                          MorePermissiveThanPolicy(NeedsConfirmation) in issues
  {
    issues := [];
    if !intent.wellFormed {
      issues := issues + [MalformedIntent];
    }
    if intent.risk == High && intent.policyDecision == AutoExecute {
      issues := issues + [HighRiskAutoExecute];
    }
    if intent.operation == UpdateStatus && intent.policyDecision == AutoExecute {
      issues := issues + [StatusUpdateAutoExecute];
    }
    var computed := DecideWritebackPolicy(intent);
    if !Allows(intent.policyDecision, computed.decision) {
      issues := issues + [MorePermissiveThanPolicy(computed.decision)];
    }
  }
}
