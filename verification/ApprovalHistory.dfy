/** Whole runs of the approval log: which logs the locked operations can produce, what every
    run's entries look like, and what reusing a run id does. */
module ApprovalHistory {
  import opened Common
  import opened CommandRisk
  import opened ApprovalLog

  /** The log after one operation: `read_entries` validates first, and a refused operation
      leaves the file alone. */
  function After(h: Host, log: Log, op: Op): Log {
    if !Accepted(h, log) then log
    else match ApplyRead(h, log, op)
         case Err(_) => log
         case Ok(grown) => grown
  }

  function Run(h: Host, ops: seq<Op>): Log {
    if ops == [] then [] else After(h, Run(h, ops[..|ops| - 1]), ops[|ops| - 1])
  }

  /** The operation asks for a run id the log has not seen, as `new_id` ensures. */
  predicate FreshRequest(log: Log, op: Op) {
    op.Request? ==> RunEntries(log, EffectiveRunId(op.q)) == []
  }

  predicate FreshRequests(h: Host, ops: seq<Op>) {
    ops == [] ||
    (FreshRequests(h, ops[..|ops| - 1]) && FreshRequest(Run(h, ops[..|ops| - 1]), ops[|ops| - 1]))
  }

  // ---------------------------------------------------------------- the invariant

  /** The lifecycle's arrows. */
  predicate Edge(a: Status, b: Status) {
    match a
    case Requested => b == Approved || b == Rejected
    case Approved => b == Executed || b == Rejected
    case Executed => b == Completed || b == Failed
    case _ => false
  }

  predicate LegalPath(run: Log) {
    && (run != [] ==> run[0].body.status == Requested)
    && forall k | 0 <= k < |run| - 1 :: Edge(run[k].body.status, run[k + 1].body.status)
  }

  /** The fields a transition copies from its request. */
  predicate Agrees(b: Body, request: Body) {
    && b.runId == request.runId
    && b.action == request.action
    && b.callId == request.callId
    && b.risk == request.risk
    && b.command == request.command
    && b.executionHash == request.executionHash
    && b.expectedRecords == request.expectedRecords
    && b.queryFilter == request.queryFilter
  }

  predicate AllAgree(run: Log) {
    forall k | 0 <= k < |run| :: Agrees(run[k].body, run[0].body)
  }

  /** A recorded approver is repeated by every later entry of the run. */
  predicate ApproverSticks(run: Log) {
    forall j, k | 0 <= j < k < |run| ::
      run[j].body.approvedBy != "" ==> run[k].body.approvedBy == run[j].body.approvedBy
  }

  /** The recorded risk is at least what the recorded command classifies to. */
  predicate RiskNotLowered(h: Host, b: Body) {
    var policy := h.classify(b.command);
    Known(b.risk) && policy.Some? && Rank(policy.value.risk) <= Rank(b.risk)
  }

  predicate RunOk(run: Log) {
    && LegalPath(run)
    && AllAgree(run)
    && ApproverSticks(run)
    && (run != [] ==> run[0].body.approvedBy == "")
  }

  ghost predicate Good(h: Host, log: Log) {
    && Accepted(h, log)
    && (forall id :: RunOk(RunEntries(log, id)))
  }

  predicate RisksRecorded(h: Host, log: Log) {
    forall i | 0 <= i < |log| :: log[i].body.status == Requested ==> RiskNotLowered(h, log[i].body)
  }

  // ---------------------------------------------------------------- runs

  lemma {:induction false} RunIds(log: Log, id: string, k: nat)
    requires k < |RunEntries(log, id)|
    ensures RunEntries(log, id)[k].body.runId == id
    ensures RunEntries(log, id)[k] in log
  {
    var init := log[..|log| - 1];
    if k < |RunEntries(init, id)| {
      RunIds(init, id, k);
    }
  }

  lemma {:induction false} LatestRequestIsFirst(run: Log)
    requires LegalPath(run) && run != []
    ensures LatestRequested(run) == Some(run[0]) == FirstRequested(run)
  {
    if |run| > 1 {
      var init := run[..|run| - 1];
      assert Edge(run[|run| - 2].body.status, run[|run| - 1].body.status);
      LatestRequestIsFirst(init);
    }
  }

  /** How far along the lifecycle a status is. */
  function Progress(s: Status): nat {
    match s
    case Requested => 0
    case Approved => 1
    case Executed => 2
    case _ => 3
  }

  lemma {:induction false} ProgressGrows(run: Log, j: nat, k: nat)
    requires LegalPath(run) && j <= k < |run|
    ensures Progress(run[j].body.status) + (k - j) <= Progress(run[k].body.status)
    decreases k - j
  {
    if j < k {
      assert Edge(run[j].body.status, run[j + 1].body.status);
      ProgressGrows(run, j + 1, k);
    }
  }

  /** A legal path has at most four entries, never repeats a status, and has nothing after a
      terminal status. */
  lemma LegalPathsAreShort(run: Log)
    requires LegalPath(run)
    ensures |run| <= 4
    ensures forall k | 0 <= k < |run| - 1 :: run[k].body.status !in {Rejected, Completed, Failed}
    ensures forall j, k | 0 <= j < k < |run| :: run[j].body.status != run[k].body.status
  {
    if run != [] {
      ProgressGrows(run, 0, |run| - 1);
    }
    forall k | 0 <= k < |run| - 1 ensures run[k].body.status !in {Rejected, Completed, Failed} {
      assert Edge(run[k].body.status, run[k + 1].body.status);
    }
    forall j, k | 0 <= j < k < |run| ensures run[j].body.status != run[k].body.status {
      ProgressGrows(run, j, k);
    }
  }

  lemma {:induction false} EffectiveApproverOfSticky(run: Log, j: nat)
    requires ApproverSticks(run) && j < |run| && run[j].body.approvedBy != ""
    ensures EffectiveApprover(run) == run[j].body.approvedBy
  {
    assert run[|run| - 1].body.approvedBy == run[j].body.approvedBy;
  }

  lemma {:induction false} NoApprover(run: Log)
    requires forall k | 0 <= k < |run| :: run[k].body.approvedBy == ""
    ensures EffectiveApprover(run) == ""
  {
    if run != [] {
      NoApprover(run[..|run| - 1]);
    }
  }

  /** Adding the next transition of a run keeps the run in order. */
  lemma TransitionKeepsRunOk(run: Log, status: Status, approver: string, note: Note, verification: Json, e: Entry)
    requires RunOk(run) && run != []
    requires Edge(LatestStatus(run), status)
    requires approver != "" ==> LatestStatus(run) == Requested
    requires e.body.(prevHash := "") == TransitionBody(run, run[0], status, approver, note, verification)
    ensures RunOk(run + [e])
  {
    var longer := run + [e];
    if LatestStatus(run) == Requested {
      LegalPathsAreShort(run);
      assert |run| == 1;
    }
    forall k | 0 <= k < |longer| - 1 ensures Edge(longer[k].body.status, longer[k + 1].body.status) {
      if k < |run| - 1 {
        assert Edge(run[k].body.status, run[k + 1].body.status);
      }
    }
    forall j, k | 0 <= j < k < |longer| && longer[j].body.approvedBy != ""
      ensures longer[k].body.approvedBy == longer[j].body.approvedBy
    {
      if k == |run| {
        EffectiveApproverOfSticky(run, j);
      }
    }
  }

  /** Exactly when a transition leaves the log readable: the run's first request, from which the
      entry is built, and its latest request, against which it is checked, must carry the same
      execution hash. */
  lemma TransitionReadableIff(h: Host, log: Log, id: string, status: Status, approver: string,
                              note: Note, verification: Json, grown: Log)
    requires Accepted(h, log)
    requires var run := RunEntries(log, id);
             Transition(h, log, run, status, approver, note, verification) == Ok(grown)
    requires status != Requested
    ensures LatestRequested(RunEntries(log, id)).Some?
    ensures Accepted(h, grown)
            <==> FirstRequested(RunEntries(log, id)).value.body.executionHash
                 == LatestRequested(RunEntries(log, id)).value.body.executionHash
  {
    var run := RunEntries(log, id);
    var request := FirstRequested(run).value;
    FirstRequestedIn(run);
    var k :| 0 <= k < |run| && run[k] == request;
    RunIds(log, id, k);
    LatestRequestedExists(run, k);
    var e := Chained(h, log, TransitionBody(run, request, status, approver, note, verification));
    AcceptedSnoc(h, log, e);
    assert grown == log + [e] && e.body.runId == id;
  }

  lemma {:induction false} FirstRequestedIn(run: Log)
    requires FirstRequested(run).Some?
    ensures FirstRequested(run).value in run && FirstRequested(run).value.body.status == Requested
  {
    if run[0].body.status != Requested {
      FirstRequestedIn(run[1..]);
    }
  }

  lemma {:induction false} LatestRequestedExists(run: Log, k: nat)
    requires k < |run| && run[k].body.status == Requested
    ensures LatestRequested(run).Some?
  {
    if run[|run| - 1].body.status != Requested {
      LatestRequestedExists(run[..|run| - 1], k);
    }
  }

  // ---------------------------------------------------------------- every reachable log is good

  lemma {:induction false} AcceptedEntriesAreValid(h: Host, log: Log, e: Entry)
    requires Accepted(h, log) && e in log
    ensures ValidSchema(e.body)
  {
    var i :| 0 <= i < |log| && log[i] == e;
    AcceptedAt(h, log, i);
  }

  /** One more entry disturbs no other run. */
  lemma RunsStayOk(log: Log, e: Entry)
    requires forall id :: RunOk(RunEntries(log, id))
    requires RunOk(RunEntries(log, e.body.runId) + [e])
    ensures forall id :: RunOk(RunEntries(log + [e], id))
  {
    forall id ensures RunOk(RunEntries(log + [e], id)) {
      RunEntriesSnoc(log, e, id);
    }
  }

  /** A lawful transition never fails and leaves the log good. */
  lemma TransitionKeepsGood(h: Host, log: Log, id: string, status: Status, approver: string,
                            note: Note, verification: Json)
    requires Good(h, log)
    requires var run := RunEntries(log, id);
             run != [] && Edge(LatestStatus(run), status)
             && (approver != "" ==> LatestStatus(run) == Requested)
    requires verification.JNull? || verification.JObject?
    ensures var grown := Transition(h, log, RunEntries(log, id), status, approver, note, verification);
            grown.Ok? && Good(h, grown.value)
  {
    var run := RunEntries(log, id);
    assert RunOk(run);
    LatestRequestIsFirst(run);
    RunIds(log, id, 0);
    AcceptedEntriesAreValid(h, log, run[0]);
    var e := Chained(h, log, TransitionBody(run, run[0], status, approver, note, verification));
    assert ValidSchema(e.body);
    var grown := log + [e];
    assert Transition(h, log, run, status, approver, note, verification) == Ok(grown);
    TransitionReadableIff(h, log, id, status, approver, note, verification, grown);
    TransitionKeepsRunOk(run, status, approver, note, verification, e);
    RunsStayOk(log, e);
  }

  /** A request under a fresh run id leaves the log good. */
  lemma RequestKeepsGood(h: Host, log: Log, b: Body)
    requires Good(h, log) && b.status == Requested && b.approvedBy == "" && ValidSchema(b)
    requires RunEntries(log, b.runId) == []
    requires ExecutionHash(h, b.command, b.runId, b.timestamp) == Some(b.executionHash)
    ensures Good(h, log + [Chained(h, log, b)])
  {
    var e := Chained(h, log, b);
    AcceptedSnoc(h, log, e);
    assert [] + [e] == [e] && RunOk([e]);
    RunsStayOk(log, e);
  }

  /** No request is recorded below the risk its command classifies to. */
  lemma RequestRisk(h: Host, q: RunRequest)
    requires RequestBody(h, q).Ok?
    ensures var b := RequestBody(h, q).value;
            b.status == Requested && b.runId == EffectiveRunId(q) && b.approvedBy == "" && RiskNotLowered(h, b)
    ensures var b := RequestBody(h, q).value;
            ExecutionHash(h, b.command, b.runId, b.timestamp) == Some(b.executionHash)
  {
  }

  lemma FinalizeKeepsGood(h: Host, log: Log, claim: Claim, output: Output, reason: string, timestamp: string)
    requires Good(h, log)
    ensures Good(h, After(h, log, Finalize(claim, output, reason, timestamp)))
  {
    var permit := Gate(h, log, claim, {Executed});
    if permit.Ok? {
      var run := RunEntries(log, permit.value.runId);
      if run != [] && LatestStatus(run) == Executed {
        if VerificationPassed(output, permit.value.expectedRecords) {
          TransitionKeepsGood(h, log, permit.value.runId, Completed, "", Note("", timestamp), JObject(output.report));
        } else {
          TransitionKeepsGood(h, log, permit.value.runId, Failed, "", Note(reason, timestamp), JObject(output.report));
        }
      }
    }
  }

  lemma OperationKeepsGood(h: Host, log: Log, op: Op)
    requires Good(h, log) && FreshRequest(log, op)
    ensures Good(h, After(h, log, op))
  {
    match op
    case Request(q) =>
      var body := RequestBody(h, q);
      if body.Ok? && Append(h, log, body.value).Ok? {
        RequestRisk(h, q);
        RequestKeepsGood(h, log, body.value);
      }
    case Approve(id, approver, note) =>
      var run := RunEntries(log, id);
      if run != [] && LatestStatus(run) == Requested {
        TransitionKeepsGood(h, log, id, Approved, approver, note, JNull);
      }
    case Reject(id, reason, rejectedBy, timestamp) =>
      var run := RunEntries(log, id);
      if run != [] && LatestStatus(run) in {Requested, Approved} {
        TransitionKeepsGood(h, log, id, Rejected, "", RejectionNote(reason, rejectedBy, timestamp), JNull);
      }
    case LogExecution(id, status, note) =>
      var run := RunEntries(log, id);
      if status == Executed && run != [] && LatestStatus(run) == Approved {
        TransitionKeepsGood(h, log, id, Executed, "", note, JNull);
      }
    case Finalize(claim, output, reason, timestamp) => FinalizeKeepsGood(h, log, claim, output, reason, timestamp);
  }

  /** Every log reached from the empty one by requests with fresh run ids, approvals, rejections,
      executions and finalisations is accepted by `validate_entries`, and each run's entries follow
      the lifecycle, agree with their request and keep their approver. */
  lemma {:induction false} ReachableLogsAreGood(h: Host, ops: seq<Op>)
    requires FreshRequests(h, ops)
    ensures Good(h, Run(h, ops))
  {
    if ops != [] {
      var init := ops[..|ops| - 1];
      ReachableLogsAreGood(h, init);
      OperationKeepsGood(h, Run(h, init), ops[|ops| - 1]);
    }
  }

  /** A transition appends one entry, and it is not a request. */
  lemma TransitionAddsNoRequest(h: Host, log: Log, run: Log, status: Status, approver: string,
                                note: Note, verification: Json)
    requires status != Requested && Transition(h, log, run, status, approver, note, verification).Ok?
    ensures exists e :: Transition(h, log, run, status, approver, note, verification) == Ok(log + [e])
                        && e.body.status != Requested
  {
    var e := Chained(h, log, TransitionBody(run, FirstRequested(run).value, status, approver, note, verification));
    assert Transition(h, log, run, status, approver, note, verification) == Ok(log + [e]);
  }

  lemma OperationKeepsRisks(h: Host, log: Log, op: Op)
    requires RisksRecorded(h, log)
    ensures RisksRecorded(h, After(h, log, op))
  {
    var grown := ApplyRead(h, log, op);
    if grown.Ok? {
      match op
      case Request(q) => RequestRisk(h, q);
      case Approve(id, approver, note) =>
        TransitionAddsNoRequest(h, log, RunEntries(log, id), Approved, approver, note, JNull);
      case Reject(id, reason, rejectedBy, timestamp) =>
        var note := RejectionNote(reason, rejectedBy, timestamp);
        TransitionAddsNoRequest(h, log, RunEntries(log, id), Rejected, "", note, JNull);
      case LogExecution(id, status, note) =>
        TransitionAddsNoRequest(h, log, RunEntries(log, id), Executed, "", note, JNull);
      case Finalize(claim, output, reason, timestamp) =>
        var permit := Gate(h, log, claim, {Executed}).value;
        var run := RunEntries(log, permit.runId);
        if VerificationPassed(output, permit.expectedRecords) {
          TransitionAddsNoRequest(h, log, run, Completed, "", Note("", timestamp), JObject(output.report));
        } else {
          TransitionAddsNoRequest(h, log, run, Failed, "", Note(reason, timestamp), JObject(output.report));
        }
    }
  }

  /** No request is ever recorded below the risk its command classifies to, fresh run id or not. */
  lemma {:induction false} ReachableRisksAreRecorded(h: Host, ops: seq<Op>)
    ensures RisksRecorded(h, Run(h, ops))
  {
    if ops != [] {
      ReachableRisksAreRecorded(h, ops[..|ops| - 1]);
      OperationKeepsRisks(h, Run(h, ops[..|ops| - 1]), ops[|ops| - 1]);
    }
  }

  /** The lifecycle over whole runs, read off any reachable log. */
  lemma LifecycleOfEveryRun(h: Host, ops: seq<Op>, id: string)
    requires FreshRequests(h, ops)
    ensures var run := RunEntries(Run(h, ops), id);
            && |run| <= 4
            && LegalPath(run)
            && AllAgree(run)
            && (forall k | 0 <= k < |run| - 1 :: run[k].body.status !in {Rejected, Completed, Failed})
            && (forall j, k | 0 <= j < k < |run| && run[j].body.status == Approved && run[j].body.approvedBy != "" ::
                  run[k].body.approvedBy == run[j].body.approvedBy)
  {
    ReachableLogsAreGood(h, ops);
    LegalPathsAreShort(RunEntries(Run(h, ops), id));
  }

  /** Once a log is refused, no operation ever changes or repairs it. */
  lemma {:induction false} RefusedLogsStayRefused(h: Host, ops: seq<Op>, more: seq<Op>)
    requires !Accepted(h, Run(h, ops))
    ensures Run(h, ops + more) == Run(h, ops)
  {
    if more == [] {
      assert ops + more == ops;
    } else {
      var init := more[..|more| - 1];
      RefusedLogsStayRefused(h, ops, init);
      assert (ops + more)[..|ops + more| - 1] == ops + init;
    }
  }

  // ---------------------------------------------------------------- reusing a run id

  /** Two requests under one run id are both accepted. */
  lemma TwoRequests(h: Host, b1: Body, b2: Body)
    requires b1.status == b2.status == Requested && b1.runId == b2.runId
    requires ValidSchema(b1) && ExecutionHash(h, b1.command, b1.runId, b1.timestamp) == Some(b1.executionHash)
    requires ValidSchema(b2) && ExecutionHash(h, b2.command, b2.runId, b2.timestamp) == Some(b2.executionHash)
    ensures var e1 := Chained(h, [], b1);
            var e2 := Chained(h, [e1], b2);
            && Accepted(h, [e1]) && Accepted(h, [e1, e2])
            && RunEntries([e1, e2], b1.runId) == [e1, e2]
            && LatestRequested([e1, e2]) == Some(e2)
  {
    var e1 := Chained(h, [], b1);
    var e2 := Chained(h, [e1], b2);
    AcceptedSnoc(h, [], e1);
    RunEntriesSnoc([], e1, b1.runId);
    assert [] + [e1] == [e1];
    AcceptedSnoc(h, [e1], e2);
    RunEntriesSnoc([e1], e2, b1.runId);
    LatestRequestedSnoc([e1], e2);
    assert [e1] + [e2] == [e1, e2];
  }

  /** Reuse a run id, then approve: the approval is always written, and it leaves the log readable
      exactly when the two requests carry the same execution hash. If not, the log is lost: no
      later operation changes it again. */
  lemma ReusedRunIdBreaksLog(h: Host, first: RunRequest, second: RunRequest, approver: string,
                             note: Note, more: seq<Op>)
    requires EffectiveRunId(first) == EffectiveRunId(second)
    requires RequestBody(h, first).Ok? && ValidSchema(RequestBody(h, first).value)
    requires RequestBody(h, second).Ok? && ValidSchema(RequestBody(h, second).value)
    ensures var ops := [Request(first), Request(second), Approve(EffectiveRunId(first), approver, note)];
            && |Run(h, ops)| == 3
            && (Accepted(h, Run(h, ops))
                <==> RequestBody(h, first).value.executionHash == RequestBody(h, second).value.executionHash)
            && (!Accepted(h, Run(h, ops)) ==> Run(h, ops + more) == Run(h, ops))
  {
    var id := EffectiveRunId(first);
    var ops := [Request(first), Request(second), Approve(id, approver, note)];
    var b1, b2 := RequestBody(h, first).value, RequestBody(h, second).value;
    RequestRisk(h, first);
    RequestRisk(h, second);
    TwoRequests(h, b1, b2);
    var e1 := Chained(h, [], b1);
    var log := [e1, Chained(h, [e1], b2)];
    RunOfTwoRequests(h, first, second);
    assert ops[..2] == [Request(first), Request(second)];
    var grown := Transition(h, log, log, Approved, approver, note, JNull);
    assert Run(h, ops) == After(h, log, ops[2]);
    assert ApplyRead(h, log, ops[2]) == grown;
    TransitionReadableIff(h, log, id, Approved, approver, note, JNull, grown.value);
    if !Accepted(h, Run(h, ops)) {
      RefusedLogsStayRefused(h, ops, more);
    }
  }

  lemma RunOfTwoRequests(h: Host, first: RunRequest, second: RunRequest)
    requires RequestBody(h, first).Ok? && ValidSchema(RequestBody(h, first).value)
    requires RequestBody(h, second).Ok? && ValidSchema(RequestBody(h, second).value)
    requires Accepted(h, [Chained(h, [], RequestBody(h, first).value)])
    ensures var e1 := Chained(h, [], RequestBody(h, first).value);
            Run(h, [Request(first), Request(second)]) == [e1, Chained(h, [e1], RequestBody(h, second).value)]
  {
    var e1 := Chained(h, [], RequestBody(h, first).value);
    var ops := [Request(first), Request(second)];
    assert ops[..1] == [Request(first)] && ops[..1][..0] == [];
    assert [] + [e1] == [e1];
    assert Run(h, ops[..1]) == After(h, [], Request(first)) == [e1];
    assert [e1] + [Chained(h, [e1], RequestBody(h, second).value)]
           == [e1, Chained(h, [e1], RequestBody(h, second).value)];
  }

  /** `validate_entries` alone does not enforce the lifecycle: it accepts an execution written
      straight after its request, which the locked operations never write. */
  lemma ValidationIgnoresLifecycle(h: Host, b: Body, note: Note)
    requires b.status == Requested && ValidSchema(b)
    requires ExecutionHash(h, b.command, b.runId, b.timestamp) == Some(b.executionHash)
    ensures var e := Chained(h, [], b);
            var grown := Transition(h, [e], [e], Executed, "", note, JNull);
            && Accepted(h, [e])
            && grown.Ok? && Accepted(h, grown.value)
            && !LegalPath(RunEntries(grown.value, b.runId))
  {
    var e := Chained(h, [], b);
    AcceptedSnoc(h, [], e);
    RunEntriesSnoc([], e, b.runId);
    assert [] + [e] == [e];
    var grown := Transition(h, [e], [e], Executed, "", note, JNull);
    assert LatestRequested([e]) == FirstRequested([e]) == Some(e);
    assert RunEntries([e], b.runId) == [e];
    TransitionReadableIff(h, [e], b.runId, Executed, "", note, JNull, grown.value);
    RunEntriesSnoc([e], grown.value[1], b.runId);
    assert grown.value == [e] + [grown.value[1]];
    var run := RunEntries(grown.value, b.runId);
    assert run == [e, grown.value[1]];
    assert !Edge(run[0].body.status, run[1].body.status);
  }
}
