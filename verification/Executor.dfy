/** The executor gateway: running the stages of a workflow in sequence. */
module Executor {
  import opened Records
  import opened Powers

  datatype Status = Completed | Succeeded | WaitingUser | Blocked | Failed | Unknown

  /** What one call of an executor ends with. */
  datatype Outcome = Threw | Returned(status: Status)

  /** What one request to the workflow service ends with. */
  datatype Reply = HttpStatus(code: nat) | NoReply

  /** `maxRepairs` is the number stored in the stage's retry policy, if there is one. */
  datatype ExecStage = ExecStage(stageId: Id, status: string, maxRepairs: Option<real>, onFailure: string)

  /** The behaviour of everything outside the gateway during one run: the executor and the repair executor
      for each stage, and the workflow service for each attempt to report a stage or to complete the run. */
  datatype Env = Env(
    execute: nat -> Outcome,
    repair: nat -> nat -> Outcome,
    report: nat -> nat -> Reply,
    complete: nat -> Reply)

  const ATTEMPTS: nat := 5

  // ----- reporting with retries -----

  predicate Accepts(reply: Reply) {
    reply.HttpStatus? && 200 <= reply.code < 300
  }

  /** No reply or a server error: worth another attempt. */
  predicate Retryable(reply: Reply) {
    reply.NoReply? || reply.code >= 500
  }

  /** The first reply that is not worth a retry, within the allowed attempts, accepts. */
  ghost predicate Acknowledged(replies: nat -> Reply, attempts: nat) {
    exists j: nat :: j < attempts && Accepts(replies(j)) && forall i: nat :: i < j ==> Retryable(replies(i))
  }

  /** Posts until the reply settles the matter. After `tries` failed attempts the waits add up to
      1000 * (2^tries - 1) milliseconds, and there is no wait after the last attempt. */
  method PostWithRetry(replies: nat -> Reply, attempts: nat) returns (ok: bool, status: nat, tries: nat, waited: nat)
    ensures ok <==> Acknowledged(replies, attempts)
    ensures tries <= attempts && (attempts > 0 ==> tries > 0)
    ensures forall i: nat :: i + 1 < tries ==> Retryable(replies(i))
    ensures attempts > 0 && !Retryable(replies(tries - 1)) ==> status == replies(tries - 1).code
    ensures attempts > 0 && Retryable(replies(tries - 1)) ==> tries == attempts && status == 0
    ensures attempts > 0 ==> waited == 1000 * (Pow2(tries - 1) - 1) <= 1000 * (Pow2(attempts - 1) - 1)
    ensures attempts == 0 ==> waited == 0
  {
    waited, tries := 0, 0;
    for i := 0 to attempts
      invariant tries == i
      invariant forall j: nat :: j < i ==> Retryable(replies(j))
      invariant waited == if i < attempts then 1000 * (Pow2(i) - 1) else if i == 0 then 0 else 1000 * (Pow2(i - 1) - 1)
    {
      tries := i + 1;
      var reply := replies(i);
      Pow2Grows(i, attempts - 1);
      if reply.HttpStatus? {
        if 200 <= reply.code < 300 {
          return true, reply.code, tries, waited;
        }
        if reply.code < 500 {
          return false, reply.code, tries, waited;
        }
      }
      if i < attempts - 1 {
        waited := waited + 1000 * Pow2(i);
      }
    }
    return false, 0, tries, waited;
  }

  // ----- running one stage -----

  predicate Good(status: Status) {
    status == Completed || status == Succeeded
  }

  /** A status after which the chain does not go on. */
  predicate Stopping(status: Status) {
    status == Failed || status == WaitingUser || status == Status.Blocked
  }

  /** The status that is reported for a stage: one that the gateway does not know counts as completed. */
  function ReportedStatus(status: Status): Status {
    if Good(status) then Completed
    else if status == WaitingUser then WaitingUser
    else if status == Status.Blocked then Status.Blocked
    else if status == Failed then Failed
    else Completed
  }

  /** The chain goes on exactly after a stage that was reported as completed. */
  lemma GoesOnWhenReportedCompleted(status: Status)
    ensures ReportedStatus(status) == Completed <==> !Stopping(status)
    ensures Stopping(status) ==> ReportedStatus(status) == status
  {
  }

  /** The stored number of repairs; without one, or when it is zero, a stage that is to be repaired or to fail gets one
      and any other none. */
  function MaxRepairs(stage: ExecStage): real {
    if stage.maxRepairs.Some? && stage.maxRepairs.value != 0.0 then stage.maxRepairs.value
    else if stage.onFailure == "repair_or_fail" then 1.0 else 0.0
  }

  /** How many repairs are tried while fewer than the maximum were tried before. */
  function RepairLimit(max: real): (n: nat)
    ensures max <= n as real
    ensures n > 0 ==> n as real < max + 1.0
  {
    if max <= 0.0 then 0 else if max.Floor as real == max then max.Floor else max.Floor + 1
  }

  /** After a failure: the first of `limit` repairs that throws or succeeds decides, and otherwise the stage
      stays failed. `used` is the number of repairs that were made. */
  ghost predicate RepairsEnd(repairs: nat -> Outcome, limit: nat, used: nat, result: Outcome) {
    && used <= limit
    && (forall k: nat :: k + 1 < used ==> repairs(k).Returned? && !Good(repairs(k).status))
    && match result
       case Threw => used > 0 && repairs(used - 1).Threw?
       case Returned(Completed) => used > 0 && repairs(used - 1).Returned? && Good(repairs(used - 1).status)
       case Returned(Failed) =>
         used == limit && forall k: nat :: k < limit ==> repairs(k).Returned? && !Good(repairs(k).status)
       case _ => false
  }

  /** How stage `i` ends: its executor's outcome, unless that is a failure that repairs may still mend. */
  ghost predicate StageEnds(env: Env, i: nat, limit: nat, used: nat, result: Outcome) {
    if env.execute(i) == Returned(Failed) then RepairsEnd(env.repair(i), limit, used, result)
    else used == 0 && result == env.execute(i)
  }

  /** How a stage ends is determined by its environment. */
  lemma StageEndsOneWay(env: Env, i: nat, limit: nat, used: nat, result: Outcome, used': nat, result': Outcome)
    requires StageEnds(env, i, limit, used, result) && StageEnds(env, i, limit, used', result')
    ensures used == used' && result == result'
  {
    var repairs := env.repair(i);
    var last := if used > 0 then repairs(used - 1) else Threw;
    var last' := if used' > 0 then repairs(used' - 1) else Threw;
    assert last == last' || used != used';
  }

  method RunStage(env: Env, i: nat, stage: ExecStage) returns (result: Outcome, used: nat)
    ensures StageEnds(env, i, RepairLimit(MaxRepairs(stage)), used, result)
  {
    result, used := env.execute(i), 0;
    var max := MaxRepairs(stage);
    ghost var limit := RepairLimit(max);
    var repairs := env.repair(i);
    if result == Returned(Failed) && max > 0.0 {
      while result == Returned(Failed) && used as real < max
        invariant used <= limit
        invariant forall k: nat :: k + 1 < used ==> repairs(k).Returned? && !Good(repairs(k).status)
        invariant result == Returned(Failed) ==>
                    forall k: nat :: k < used ==> repairs(k).Returned? && !Good(repairs(k).status)
        invariant result == Returned(Failed) || (used > 0 && result == Returned(Completed) &&
                                                 repairs(used - 1).Returned? && Good(repairs(used - 1).status))
        decreases limit - used, result == Returned(Failed)
      {
        used := used + 1;
        var repaired := repairs(used - 1);
        if repaired.Threw? {
          return Threw, used;
        }
        result := if Good(repaired.status) then Returned(Completed) else Returned(Failed);
      }
    }
  }

  /** Repairs stay within the computed maximum in every environment if and only if that maximum is a whole
      number or not positive: a fractional maximum is rounded up. */
  lemma RepairsWithinMaximum(stage: ExecStage)
    ensures (forall env: Env, i, used, result :: StageEnds(env, i, RepairLimit(MaxRepairs(stage)), used, result)
                                                 ==> used == 0 || used as real <= MaxRepairs(stage))
       <==> MaxRepairs(stage) <= 0.0 || MaxRepairs(stage).Floor as real == MaxRepairs(stage)
  {
    var max := MaxRepairs(stage);
    var limit := RepairLimit(max);
    if max > 0.0 && max.Floor as real != max {
      var env := Env(_ => Returned(Failed), _ => _ => Returned(Failed), _ => _ => NoReply, _ => NoReply);
      assert StageEnds(env, 0, limit, limit, Returned(Failed));
    }
  }

  /** A stored whole number of repairs is kept, and some environment uses all of them; a stored zero gives one
      repair to a stage that is to be repaired or to fail. */
  lemma StoredMaximumIsKept(stage: ExecStage, k: nat)
    requires stage.maxRepairs == Some(k as real)
    ensures var limit := RepairLimit(MaxRepairs(stage));
            && limit == (if k > 0 then k else if stage.onFailure == "repair_or_fail" then 1 else 0)
            && (forall env: Env, i: nat, used: nat, result :: StageEnds(env, i, limit, used, result) ==> used <= limit)
            && exists env: Env :: StageEnds(env, 0, limit, limit, Returned(Failed))
  {
    var limit := RepairLimit(MaxRepairs(stage));
    assert (k as real).Floor == k;
    var env := Env(_ => Returned(Failed), _ => _ => Returned(Failed), _ => _ => NoReply, _ => NoReply);
    assert StageEnds(env, 0, limit, limit, Returned(Failed));
  }

  /** A stage without a stored number of repairs gets one if it is to be repaired or to fail, and none otherwise. */
  lemma WithoutStoredMaximum(stage: ExecStage)
    requires stage.maxRepairs.None?
    ensures RepairLimit(MaxRepairs(stage)) == (if stage.onFailure == "repair_or_fail" then 1 else 0)
  {
  }

  /** A repair mends the stage exactly when it ends completed or succeeded; the stage then counts as completed, and the
      number of the repair is the number of repairs used. */
  lemma FirstGoodRepairMends(env: Env, i: nat, limit: nat, used: nat, result: Outcome)
    requires StageEnds(env, i, limit, used, result) && env.execute(i) == Returned(Failed)
    ensures result == Returned(Completed) <==>
              && 0 < used <= limit
              && (env.repair(i)(used - 1) == Returned(Completed) || env.repair(i)(used - 1) == Returned(Succeeded))
              && forall k: nat :: k + 1 < used ==>
                   && env.repair(i)(k) != Threw && env.repair(i)(k) != Returned(Completed)
                   && env.repair(i)(k) != Returned(Succeeded)
  {
  }

  // ----- running the chain -----

  datatype StageRun = StageRun(index: nat, result: Outcome, repairs: nat, acknowledged: bool)

  /** A stage without a status counts as pending. */
  predicate Runnable(stage: ExecStage) {
    stage.status in {"running", "pending", ""}
  }

  function RunnableStages(stages: seq<ExecStage>): (indices: seq<nat>)
    ensures forall i :: i in indices ==> i < |stages| && Runnable(stages[i])
  {
    if stages == [] then []
    else
      var n := |stages| - 1;
      RunnableStages(stages[..n]) + (if Runnable(stages[n]) then [n] else [])
  }

  /** The stage was reported, the report was acknowledged, and the status lets the chain go on. */
  predicate Passed(run: StageRun) {
    run.acknowledged && run.result.Returned? && !Stopping(run.result.status)
  }

  /** A stage passed when its report was acknowledged and it did not end failed, waiting for the user or blocked. */
  lemma PassedByStatus(run: StageRun)
    ensures Passed(run) <==>
              && run.acknowledged && run.result != Threw && run.result != Returned(Failed)
              && run.result != Returned(WaitingUser) && run.result != Returned(Status.Blocked)
  {
  }

  ghost predicate RanAs(stages: seq<ExecStage>, env: Env, run: StageRun) {
    && run.index < |stages|
    && StageEnds(env, run.index, RepairLimit(MaxRepairs(stages[run.index])), run.repairs, run.result)
    && (run.acknowledged <==> run.result.Returned? && Acknowledged(env.report(run.index), ATTEMPTS))
  }

  /** The runnable stages run in order, each only after the one before it passed. */
  ghost predicate RunsInOrder(stages: seq<ExecStage>, env: Env, log: seq<StageRun>) {
    && |log| <= |RunnableStages(stages)|
    && (forall n :: 0 <= n < |log| ==> log[n].index == RunnableStages(stages)[n] && RanAs(stages, env, log[n]))
    && (forall n :: 0 <= n < |log| - 1 ==> Passed(log[n]))
  }

  ghost predicate AllPassed(log: seq<StageRun>) {
    forall run :: run in log ==> Passed(run)
  }

  ghost predicate Ran(log: seq<StageRun>, i: nat) {
    exists m :: 0 <= m < |log| && log[m].index == i
  }

  /** A whole run of a fetched workflow: it stops only at a stage that did not pass, and the completion
      callback is attempted exactly when there are stages and every runnable one passed. */
  ghost predicate IsRun(stages: seq<ExecStage>, env: Env, log: seq<StageRun>, completionAttempted: bool) {
    && RunsInOrder(stages, env, log)
    && (|log| < |RunnableStages(stages)| && stages != [] ==> log != [] && !Passed(log[|log| - 1]))
    && (completionAttempted <==> stages != [] && |log| == |RunnableStages(stages)| && AllPassed(log))
  }

  /** `fetched` is absent when the workflow could not be fetched. */
  method AutoExecute(fetched: Option<seq<ExecStage>>, env: Env)
    returns (log: seq<StageRun>, completionAttempted: bool, completed: bool)
    ensures fetched.None? ==> log == [] && !completionAttempted
    ensures fetched.Some? ==> IsRun(fetched.value, env, log, completionAttempted)
    ensures completed <==> completionAttempted && Acknowledged(env.complete, 5)
    ensures forall run :: run in log ==> (run.acknowledged <==> run.result.Returned? && Acknowledged(env.report(run.index), 5))
    ensures fetched.Some? ==> forall run :: run in log ==>
              run.index < |fetched.value| && fetched.value[run.index].status in {"running", "pending", ""}
    ensures completionAttempted ==> fetched.Some?
    ensures completionAttempted ==>
              forall i: nat :: i < |fetched.value| && fetched.value[i].status in {"running", "pending", ""} ==> Ran(log, i)
  {
    hide RunsInOrder, AllPassed, RanAs, Passed, RunnableStages, IsRun;
    log, completionAttempted, completed := [], false, false;
    NothingToRun(env);
    if fetched.None? || fetched.value == [] {
      return;
    }
    var stages := fetched.value;
    var stoppedEarly := false;
    NothingRun(stages, env);
    var i := 0;
    while i < |stages| && !stoppedEarly
      invariant i <= |stages|
      invariant RunsInOrder(stages, env, log)
      invariant !stoppedEarly ==> |log| == |RunnableStages(stages[..i])| && AllPassed(log)
      invariant stoppedEarly ==> log != [] && !Passed(log[|log| - 1])
      invariant RunnableStages(stages[..i]) <= RunnableStages(stages)
      decreases |stages| - i
    {
      RunnableNext(stages, i);
      if Runnable(stages[i]) {
        var run := RunAndReport(stages, env, i);
        LogNext(stages, env, log, run, i);
        log := log + [run];
        stoppedEarly := !Passed(run);
      }
      i := i + 1;
    }
    RunEnds(stages, env, log, stoppedEarly);
    RunsOpenStages(stages, env, log, !stoppedEarly);
    AcknowledgedByReport(stages, env, log);
    if !stoppedEarly {
      completionAttempted := true;
      var ok, _, _, _ := PostWithRetry(env.complete, ATTEMPTS);
      completed := ok;
    }
  }

  method RunAndReport(stages: seq<ExecStage>, env: Env, i: nat) returns (run: StageRun)
    requires i < |stages|
    ensures run.index == i && RanAs(stages, env, run)
  {
    var result, repairs := RunStage(env, i, stages[i]);
    var acknowledged := false;
    if result.Returned? {
      var ok, _, _, _ := PostWithRetry(env.report(i), ATTEMPTS);
      acknowledged := ok;
    }
    run := StageRun(i, result, repairs, acknowledged);
  }

  lemma AcknowledgedByReport(stages: seq<ExecStage>, env: Env, log: seq<StageRun>)
    requires RunsInOrder(stages, env, log)
    ensures forall run :: run in log ==> (run.acknowledged <==> run.result.Returned? && Acknowledged(env.report(run.index), 5))
  {
    hide RunnableStages, Passed, StageEnds, Acknowledged;
  }

  lemma RunEnds(stages: seq<ExecStage>, env: Env, log: seq<StageRun>, stoppedEarly: bool)
    requires stages != [] && RunsInOrder(stages, env, log)
    requires !stoppedEarly ==> |log| == |RunnableStages(stages)| && AllPassed(log)
    requires stoppedEarly ==> log != [] && !Passed(log[|log| - 1])
    ensures IsRun(stages, env, log, !stoppedEarly)
  {
    assert log != [] ==> log[|log| - 1] in log;
  }

  lemma NothingToRun(env: Env)
    ensures IsRun([], env, [], false)
  {
  }

  lemma NothingRun(stages: seq<ExecStage>, env: Env)
    ensures RunsInOrder(stages, env, []) && AllPassed([])
    ensures RunnableStages(stages[..0]) == [] && stages[..|stages|] == stages
  {
  }

  lemma {:induction false} RunnableNext(stages: seq<ExecStage>, i: nat)
    requires i < |stages|
    ensures RunnableStages(stages[..i + 1]) == RunnableStages(stages[..i]) + (if Runnable(stages[i]) then [i] else [])
    ensures RunnableStages(stages[..i + 1]) <= RunnableStages(stages)
    decreases |stages| - i
  {
    assert stages[..i + 1][..i] == stages[..i];
    if i + 1 < |stages| {
      RunnableNext(stages, i + 1);
    } else {
      assert stages[..i + 1] == stages;
    }
  }

  lemma LogNext(stages: seq<ExecStage>, env: Env, log: seq<StageRun>, run: StageRun, i: nat)
    requires RunsInOrder(stages, env, log) && AllPassed(log)
    requires i < |stages| && Runnable(stages[i])
    requires |log| == |RunnableStages(stages[..i])|
    requires run.index == i && RanAs(stages, env, run)
    ensures RunsInOrder(stages, env, log + [run])
    ensures AllPassed(log + [run]) <==> Passed(run)
  {
    RunnableNext(stages, i);
    var more := log + [run];
    assert RunnableStages(stages)[|log|] == i;
    forall n | 0 <= n < |more| - 1 ensures Passed(more[n]) {
      assert log[n] in log;
    }
    assert run in more;
  }

  /** The runnable indices, in increasing order, are those of the stages that are running, pending or without a
      status. */
  lemma {:induction false} RunnableByStatus(stages: seq<ExecStage>)
    ensures forall m, n :: 0 <= m < n < |RunnableStages(stages)| ==> RunnableStages(stages)[m] < RunnableStages(stages)[n]
    ensures forall i: nat :: i in RunnableStages(stages) <==>
              i < |stages| && (stages[i].status == "running" || stages[i].status == "pending" || stages[i].status == "")
  {
    if stages != [] {
      var rest := stages[..|stages| - 1];
      RunnableByStatus(rest);
      assert forall m :: 0 <= m < |RunnableStages(rest)| ==> RunnableStages(rest)[m] in RunnableStages(rest);
    }
  }

  /** Only stages that are running, pending or without a status are executed, each at most once and in order, and none
      of them is skipped. If completion is attempted, all of them were executed. */
  lemma RunsOpenStages(stages: seq<ExecStage>, env: Env, log: seq<StageRun>, attempted: bool)
    requires IsRun(stages, env, log, attempted)
    ensures forall run :: run in log ==>
              run.index < |stages| && stages[run.index].status in {"running", "pending", ""}
    ensures forall m, n :: 0 <= m < n < |log| ==> log[m].index < log[n].index
    ensures forall n, i: nat :: 0 <= n < |log| && i < log[n].index && stages[i].status in {"running", "pending", ""} ==>
              Ran(log[..n], i)
    ensures attempted ==>
              forall i: nat :: i < |stages| && stages[i].status in {"running", "pending", ""} ==> Ran(log, i)
  {
    hide RanAs, AllPassed, RunnableStages, Runnable;
    var open := RunnableStages(stages);
    RunnableByStatus(stages);
    assert forall n :: 0 <= n < |log| ==> log[n].index == open[n] && open[n] in open;
    forall n, i: nat | 0 <= n < |log| && i < log[n].index && stages[i].status in {"running", "pending", ""}
      ensures Ran(log[..n], i)
    {
      var m :| 0 <= m < |open| && open[m] == i;
      assert m < n && log[..n][m].index == i;
    }
    if attempted {
      forall i: nat | i < |stages| && stages[i].status in {"running", "pending", ""}
        ensures Ran(log, i)
      {
        var m :| 0 <= m < |open| && open[m] == i;
        assert log[m].index == i;
      }
    }
  }

  /** The environment determines the run. */
  lemma RunIsDetermined(stages: seq<ExecStage>, env: Env, log: seq<StageRun>, attempted: bool,
                        log': seq<StageRun>, attempted': bool)
    requires IsRun(stages, env, log, attempted) && IsRun(stages, env, log', attempted')
    ensures log == log' && attempted == attempted'
  {
    forall n | 0 <= n < |log| && n < |log'| ensures log[n] == log'[n] {
      var a, b := log[n], log'[n];
      StageEndsOneWay(env, a.index, RepairLimit(MaxRepairs(stages[a.index])), a.repairs, a.result, b.repairs, b.result);
    }
    assert forall n :: 0 <= n < |log| - 1 ==> Passed(log[n]);
    assert forall n :: 0 <= n < |log'| - 1 ==> Passed(log'[n]);
    assert |log| == |log'|;
    assert log == log';
  }
}
