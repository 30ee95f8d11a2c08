/** What the operations on the approval log write and what the gate answers, said of the stored entries
    alone (scripts/approval_pipeline.py). */
module ApprovalTable {
  import opened Common
  import opened CommandRisk
  import opened ApprovalLog
  import opened ApprovalHistory
  import opened ApprovalGate
  import opened ApprovalValidity

  // ---------------------------------------------------------------- a run's first and last entry

  predicate FirstAt(log: Log, id: string, i: nat) {
    i < |log| && log[i].body.runId == id && forall k | 0 <= k < i :: log[k].body.runId != id
  }

  predicate LastAt(log: Log, id: string, i: nat) {
    i < |log| && log[i].body.runId == id && forall k | i < k < |log| :: log[k].body.runId != id
  }

  predicate NoEntryOf(log: Log, id: string) {
    forall k | 0 <= k < |log| :: log[k].body.runId != id
  }

  /** The latest entry of the run has this status. */
  ghost predicate Stands(log: Log, id: string, status: Status) {
    exists k: nat :: LastAt(log, id, k) && log[k].body.status == status
  }

  lemma {:induction false} NoRun(log: Log, id: string)
    ensures RunEntries(log, id) == [] <==> NoEntryOf(log, id)
  {
    if log != [] {
      var init := log[..|log| - 1];
      NoRun(init, id);
      assert forall k | 0 <= k < |init| :: init[k] == log[k];
    }
  }

  lemma {:induction false} RunEnds(log: Log, id: string) returns (first: nat, last: nat)
    requires RunEntries(log, id) != []
    ensures FirstAt(log, id, first) && log[first] == RunEntries(log, id)[0]
    ensures LastAt(log, id, last) && log[last] == RunEntries(log, id)[|RunEntries(log, id)| - 1]
  {
    var n := |log| - 1;
    var init := log[..n];
    assert forall k | 0 <= k < n :: init[k] == log[k];
    NoRun(init, id);
    if RunEntries(init, id) == [] {
      first, last := n, n;
    } else {
      first, last := RunEnds(init, id);
      if log[n].body.runId == id {
        last := n;
      }
    }
  }

  lemma OneFirst(log: Log, id: string, i: nat, j: nat)
    requires FirstAt(log, id, i) && FirstAt(log, id, j)
    ensures i == j
  {
  }

  lemma OneLast(log: Log, id: string, i: nat, j: nat)
    requires LastAt(log, id, i) && LastAt(log, id, j)
    ensures i == j
  {
  }

  /** The log's own view of a run and that of its entries agree. */
  lemma StandsIff(log: Log, id: string, status: Status)
    ensures Stands(log, id, status) <==> RunEntries(log, id) != [] && LatestStatus(RunEntries(log, id)) == status
  {
    NoRun(log, id);
    if RunEntries(log, id) != [] {
      var first, last := RunEnds(log, id);
      forall k: nat | LastAt(log, id, k) ensures k == last {
        OneLast(log, id, k, last);
      }
    }
  }

  // ---------------------------------------------------------------- what an operation writes

  /** The new entry is linked to the log and hashed over its own material and that link. */
  predicate LinkedTo(h: Host, log: Log, e: Entry) {
    && e.body.prevHash == (if log == [] then Zeros(64) else log[|log| - 1].hash)
    && e.hash == h.sha256(h.canonical(e.body) + e.body.prevHash)
  }

  /** What every entry repeats from the request of its run. */
  predicate Repeats(b: Body, request: Body) {
    && b.runId == request.runId
    && b.action == request.action
    && b.callId == request.callId
    && b.risk == request.risk
    && b.command == request.command
    && b.executionHash == request.executionHash
    && b.expectedRecords == request.expectedRecords
    && b.queryFilter == request.queryFilter
    && b.details.expectedImpact == request.details.expectedImpact
    && b.details.scope == request.details.scope
    && b.details.approvalRequired == request.details.approvalRequired
    && b.details.confirmationRequired == request.details.confirmationRequired
  }

  /** One linked entry of the run is appended, with this status, approver, note, time and verification. */
  ghost predicate Writes(h: Host, log: Log, after: Log, id: string, status: Status, approver: string,
                         notes: string, timestamp: string, verification: Json) {
    && |after| == |log| + 1 && after[..|log|] == log && LinkedTo(h, log, after[|log|])
    && var b := after[|log|].body;
       && b.status == status
       && b.approvedBy == approver
       && b.details.notes == notes
       && b.timestamp == timestamp
       && b.details.verification == verification
       && exists i: nat :: FirstAt(log, id, i) && Repeats(b, log[i].body)
  }

  /** The same with the approver that the run's latest entry carries, and no verification. */
  ghost predicate WritesKeeping(h: Host, log: Log, after: Log, id: string, status: Status, notes: string,
                                timestamp: string) {
    exists k: nat :: LastAt(log, id, k)
                     && Writes(h, log, after, id, status, log[k].body.approvedBy, notes, timestamp, JNull)
  }

  /** On a run in order the effective approver is the one its latest entry carries. */
  lemma {:induction false} ApproverOfLatest(run: Log)
    requires RunOk(run) && run != []
    ensures EffectiveApprover(run) == run[|run| - 1].body.approvedBy
  {
    var latest := run[|run| - 1].body.approvedBy;
    assert forall k | 0 <= k < |run| - 1 :: run[k].body.approvedBy in {"", latest};
    if latest == "" {
      NoApprover(run);
    }
  }

  lemma TransitionWrites(h: Host, log: Log, id: string, status: Status, approver: string, note: Note,
                         verification: Json)
    requires Good(h, log) && RunEntries(log, id) != [] && Edge(LatestStatus(RunEntries(log, id)), status)
    requires approver != "" ==> LatestStatus(RunEntries(log, id)) == Requested
    requires verification.JNull? || verification.JObject?
    ensures var run := RunEntries(log, id);
            var after := Transition(h, log, run, status, approver, note, verification);
            after.Ok? && Writes(h, log, after.value, id, status,
                                if approver != "" then approver else run[|run| - 1].body.approvedBy,
                                note.text, note.timestamp, verification)
  {
    var run := RunEntries(log, id);
    assert RunOk(run);
    TransitionKeepsGood(h, log, id, status, approver, note, verification);
    LatestRequestIsFirst(run);
    ApproverOfLatest(run);
    RunIds(log, id, 0);
    var first, last := RunEnds(log, id);
    var after := Transition(h, log, run, status, approver, note, verification).value;
    assert Repeats(after[|log|].body, log[first].body);
  }

  predicate NoneNamed(run: Log) {
    forall k | 0 <= k < |run| :: run[k].body.approvedBy == ""
  }

  /** Entry k names this approver and no later one names any. */
  predicate NamedAt(run: Log, k: nat, name: string) {
    k < |run| && run[k].body.approvedBy == name && NoneNamed(run[k + 1..])
  }

  /** The name is that of the latest entry of the run that names anybody. */
  ghost predicate LastNamed(run: Log, name: string) {
    if name == "" then NoneNamed(run) else exists k: nat :: NamedAt(run, k, name)
  }

  lemma {:induction false} EffectiveIsLastNamed(run: Log)
    ensures LastNamed(run, EffectiveApprover(run))
  {
    var name := EffectiveApprover(run);
    if run != [] {
      var n := |run| - 1;
      if run[n].body.approvedBy != "" {
        assert NamedAt(run, n, name);
      } else {
        EffectiveIsLastNamed(run[..n]);
        if name != "" {
          var k: nat :| NamedAt(run[..n], k, name);
          assert run[k + 1..] == run[..n][k + 1..] + [run[n]];
          assert NamedAt(run, k, name);
        } else {
          assert run == run[..n] + [run[n]];
        }
      }
    }
  }

  /** Whatever the run looks like, a transition that names an approver records that one, also over an
      earlier approval, and any other repeats the one named last. */
  lemma TransitionNames(h: Host, log: Log, run: Log, status: Status, approver: string, note: Note, verification: Json)
    ensures var after := Transition(h, log, run, status, approver, note, verification);
            after.Ok? ==>
              && |after.value| == |log| + 1
              && var name := after.value[|log|].body.approvedBy;
                 if approver != "" then name == approver else LastNamed(run, name)
  {
    EffectiveIsLastNamed(run);
  }

  /** A single requested entry has no approver yet. */
  lemma RequestedHasNoApprover(h: Host, log: Log, id: string)
    requires Good(h, log) && RunEntries(log, id) != [] && LatestStatus(RunEntries(log, id)) == Requested
    ensures RunEntries(log, id)[|RunEntries(log, id)| - 1].body.approvedBy == ""
  {
    var run := RunEntries(log, id);
    assert RunOk(run);
    ProgressGrows(run, 0, |run| - 1);
  }

  /** What a refused transition reports. */
  ghost predicate Refuses(r: Result<Log, ApprovalError>, log: Log, id: string) {
    if NoEntryOf(log, id) then r == Err(UnknownRun)
    else exists k: nat :: LastAt(log, id, k) && r == Err(WrongState(log[k].body.status))
  }

  lemma RefusalReported(log: Log, id: string)
    ensures NoEntryOf(log, id) <==> RunEntries(log, id) == []
    ensures RunEntries(log, id) != [] ==> Refuses(Err(WrongState(LatestStatus(RunEntries(log, id)))), log, id)
    ensures RunEntries(log, id) == [] ==> Refuses(Err(UnknownRun), log, id)
  {
    NoRun(log, id);
    if RunEntries(log, id) != [] {
      var first, last := RunEnds(log, id);
    }
  }

  /** A good log that is read gives what the operation gives, or stays as it is. */
  lemma AfterRead(h: Host, log: Log, op: Op)
    requires Accepted(h, log)
    ensures After(h, log, op) == if ApplyRead(h, log, op).Ok? then ApplyRead(h, log, op).value else log
  {
  }

  lemma ApprovalMade(h: Host, log: Log, id: string, approver: string, note: Note)
    requires Good(h, log) && RunEntries(log, id) != [] && LatestStatus(RunEntries(log, id)) == Requested
    ensures var r := ApplyRead(h, log, Approve(id, approver, note));
            r.Ok? && Writes(h, log, r.value, id, Approved, approver, note.text, note.timestamp, JNull)
  {
    TransitionWrites(h, log, id, Approved, approver, note, JNull);
    RequestedHasNoApprover(h, log, id);
  }

  /** A transition that the run's state does not allow is refused. */
  lemma ApprovalRefused(h: Host, log: Log, id: string, approver: string, note: Note)
    requires !Stands(log, id, Requested)
    ensures Refuses(ApplyRead(h, log, Approve(id, approver, note)), log, id)
  {
    StandsIff(log, id, Requested);
    RefusalReported(log, id);
  }

  /** An approval appends one approved entry, with the given approver, note and time, exactly when the run
      stands requested; otherwise it changes nothing and says why. */
  lemma ApproveTable(h: Host, log: Log, id: string, approver: string, note: Note)
    requires Good(h, log)
    ensures var after := After(h, log, Approve(id, approver, note));
            if Stands(log, id, Requested)
            then Writes(h, log, after, id, Approved, approver, note.text, note.timestamp, JNull)
            else after == log && Refuses(ApplyRead(h, log, Approve(id, approver, note)), log, id)
  {
    AfterRead(h, log, Approve(id, approver, note));
    if Stands(log, id, Requested) {
      StandsIff(log, id, Requested);
      ApprovalMade(h, log, id, approver, note);
    } else {
      ApprovalRefused(h, log, id, approver, note);
    }
  }

  lemma RejectionMade(h: Host, log: Log, id: string, reason: string, rejectedBy: string, timestamp: string)
    requires Good(h, log) && RunEntries(log, id) != [] && LatestStatus(RunEntries(log, id)) in {Requested, Approved}
    ensures var r := ApplyRead(h, log, Reject(id, reason, rejectedBy, timestamp));
            var notes := if rejectedBy == "" then reason else reason + " (by " + rejectedBy + ")";
            r.Ok? && WritesKeeping(h, log, r.value, id, Rejected, notes, timestamp)
  {
    TransitionWrites(h, log, id, Rejected, "", RejectionNote(reason, rejectedBy, timestamp), JNull);
    var first, last := RunEnds(log, id);
  }

  lemma RejectionRefused(h: Host, log: Log, id: string, reason: string, rejectedBy: string, timestamp: string)
    requires !Stands(log, id, Requested) && !Stands(log, id, Approved)
    ensures Refuses(ApplyRead(h, log, Reject(id, reason, rejectedBy, timestamp)), log, id)
  {
    StandsIff(log, id, Requested);
    StandsIff(log, id, Approved);
    RefusalReported(log, id);
  }

  /** A rejection appends one rejected entry exactly when the run stands requested or approved. It keeps
      the run's approver, and its note holds the reason and who rejected. */
  lemma RejectTable(h: Host, log: Log, id: string, reason: string, rejectedBy: string, timestamp: string)
    requires Good(h, log)
    ensures var op := Reject(id, reason, rejectedBy, timestamp);
            var notes := if rejectedBy == "" then reason else reason + " (by " + rejectedBy + ")";
            if Stands(log, id, Requested) || Stands(log, id, Approved)
            then WritesKeeping(h, log, After(h, log, op), id, Rejected, notes, timestamp)
            else After(h, log, op) == log && Refuses(ApplyRead(h, log, op), log, id)
  {
    AfterRead(h, log, Reject(id, reason, rejectedBy, timestamp));
    if Stands(log, id, Requested) || Stands(log, id, Approved) {
      StandsIff(log, id, Requested);
      StandsIff(log, id, Approved);
      RejectionMade(h, log, id, reason, rejectedBy, timestamp);
    } else {
      RejectionRefused(h, log, id, reason, rejectedBy, timestamp);
    }
  }

  lemma ExecutionMade(h: Host, log: Log, id: string, note: Note)
    requires Good(h, log) && RunEntries(log, id) != [] && LatestStatus(RunEntries(log, id)) == Approved
    ensures var r := ApplyRead(h, log, LogExecution(id, Executed, note));
            r.Ok? && WritesKeeping(h, log, r.value, id, Executed, note.text, note.timestamp)
  {
    TransitionWrites(h, log, id, Executed, "", note, JNull);
    var first, last := RunEnds(log, id);
  }

  lemma ExecutionRefused(h: Host, log: Log, id: string, note: Note)
    requires !Stands(log, id, Approved)
    ensures Refuses(ApplyRead(h, log, LogExecution(id, Executed, note)), log, id)
  {
    StandsIff(log, id, Approved);
    RefusalReported(log, id);
  }

  /** Logging an execution appends one executed entry exactly when that is the status asked for and the
      run stands approved. It keeps the run's approver. */
  lemma ExecutionTable(h: Host, log: Log, id: string, status: Status, note: Note)
    requires Good(h, log)
    ensures var op := LogExecution(id, status, note);
            if status != Executed then After(h, log, op) == log && ApplyRead(h, log, op) == Err(UnsupportedStatus)
            else if Stands(log, id, Approved)
            then WritesKeeping(h, log, After(h, log, op), id, Executed, note.text, note.timestamp)
            else After(h, log, op) == log && Refuses(ApplyRead(h, log, op), log, id)
  {
    AfterRead(h, log, LogExecution(id, status, note));
    if status == Executed && Stands(log, id, Approved) {
      StandsIff(log, id, Approved);
      ExecutionMade(h, log, id, note);
    } else if status == Executed {
      ExecutionRefused(h, log, id, note);
    }
  }

  // ---------------------------------------------------------------- requests

  /** The request can be recorded: its command parses, the level asked for is one of the five and not below
      the command's own, and its execution hash is a digest. */
  ghost predicate Recordable(h: Host, q: RunRequest, command: string, normal: string) {
    && h.normalize(q.command) == Some(command)
    && h.classify(command).Some?
    && (q.requestedRisk.Some? ==>
          q.requestedRisk.value in {L0, L1, L2, L3, L4}
          && Rank(h.classify(command).value.risk) <= Rank(q.requestedRisk.value))
    && h.normalize(command) == Some(normal)
    && HexDigits(h.sha256(normal + (if Truthy(q.runId) then q.runId.value else q.freshRunId) + q.timestamp))
  }

  /** The recorded request says what was asked. */
  predicate Records(h: Host, q: RunRequest, b: Body, command: string, normal: string)
    requires h.classify(command).Some?
  {
    var policy := h.classify(command).value;
    && b.status == Requested
    && b.command == command
    && b.action == (if Truthy(q.action) then q.action.value else policy.action)
    && b.runId == (if Truthy(q.runId) then q.runId.value else q.freshRunId)
    && b.callId == (if Truthy(q.callId) then q.callId.value else q.freshCallId)
    && b.risk == (if q.requestedRisk.Some? then q.requestedRisk.value else policy.risk)
    && b.executionHash == h.sha256(normal + b.runId + q.timestamp)
    && b.approvedBy == ""
    && b.expectedRecords == q.expectedRecords
    && b.queryFilter == q.queryFilter
    && b.timestamp == q.timestamp
    && b.details.notes == q.notes && b.details.expectedImpact == q.impact && b.details.scope == q.scope
    && (b.details.approvalRequired <==> b.risk in {L2, L3, L4})
    && (b.details.confirmationRequired <==> b.risk in {L3, L4})
    && b.details.verification == JNull
  }

  /** A request appends one requested entry that says what was asked, exactly when it can be recorded. */
  lemma RequestTable(h: Host, log: Log, q: RunRequest)
    requires Accepted(h, log)
    ensures var after := After(h, log, Request(q));
            && (after == log <==> forall command, normal :: !Recordable(h, q, command, normal))
            && forall command, normal | Recordable(h, q, command, normal) ::
                 && |after| == |log| + 1 && after[..|log|] == log && LinkedTo(h, log, after[|log|])
                 && Records(h, q, after[|log|].body, command, normal)
  {
    var after := After(h, log, Request(q));
    if command, normal :| Recordable(h, q, command, normal) {
      RecordableIsRequested(h, log, q, command, normal);
    } else {
      var body := RequestBody(h, q);
      if body.Ok? && Append(h, log, body.value).Ok? {
        var command := h.normalize(q.command).value;
        var normal := h.normalize(command).value;
        assert Recordable(h, q, command, normal);
      }
    }
  }

  lemma RecordableIsRequested(h: Host, log: Log, q: RunRequest, command: string, normal: string)
    requires Accepted(h, log) && Recordable(h, q, command, normal)
    ensures var after := After(h, log, Request(q));
            && |after| == |log| + 1 && after[..|log|] == log && LinkedTo(h, log, after[|log|])
            && Records(h, q, after[|log|].body, command, normal)
  {
    var body := RequestBody(h, q);
    assert body.Ok?;
    assert ValidSchema(body.value.(prevHash := HeadHash(log)));
  }

  /** Why a request is refused: its command does not parse, the level asked for is none of the five, or it
      is below the command's own. */
  lemma RequestRefusals(h: Host, log: Log, q: RunRequest)
    ensures var (r, asked) := (ApplyRead(h, log, Request(q)), q.requestedRisk);
            if h.normalize(q.command).None? || h.classify(h.normalize(q.command).value).None?
            then r == Err(BadCommand)
            else
              && (asked.Some? && asked.value !in {L0, L1, L2, L3, L4} ==> r == Err(BadRisk(UnsupportedRisk)))
              && (asked.Some? && asked.value in {L0, L1, L2, L3, L4}
                  && Rank(asked.value) < Rank(h.classify(h.normalize(q.command).value).value.risk) ==>
                    r == Err(BadRisk(Downgrade)))
  {
  }

  // ---------------------------------------------------------------- the gate for a named run

  /** The claim names this run: its command, the hash if one is given, the run's state and, where its risk
      asks for it, the confirmation. */
  ghost predicate Names(h: Host, log: Log, claim: Claim, permitted: set<Status>, id: string, first: nat, last: nat) {
    && FirstAt(log, id, first) && LastAt(log, id, last)
    && h.normalize(claim.command) == Some(log[first].body.command) && h.classify(log[first].body.command).Some?
    && (Truthy(claim.executionHash) ==> claim.executionHash.value == log[first].body.executionHash)
    && log[last].body.status in permitted
    && (log[first].body.risk in {L3, L4} ==> claim.confirm)
  }

  /** The permit for a run repeats its request and the approver its latest entry carries. */
  function PermitFor(request: Body, approver: string): Permit {
    Permit(request.command, request.action, request.risk, true, request.risk in {L3, L4}, request.runId,
           request.callId, request.executionHash, request.expectedRecords, request.queryFilter, approver)
  }

  /** The checks after the lookup, on a run of a good log. */
  lemma ChecksOnRun(h: Host, log: Log, id: string, claim: Claim, permitted: set<Status>, first: nat, last: nat)
    requires Good(h, log) && FirstAt(log, id, first) && LastAt(log, id, last)
    requires h.normalize(claim.command) == Some(log[first].body.command) && h.classify(log[first].body.command).Some?
    ensures var r := GateChecks(h, RunEntries(log, id), log[first].body.command, claim, permitted);
            && (r.Ok? <==> Names(h, log, claim, permitted, id, first, last))
            && (r.Ok? ==> r.value == PermitFor(log[first].body, log[last].body.approvedBy))
            && (log[last].body.status !in permitted ==> r == Err(WrongState(log[last].body.status)))
  {
    var run := RunEntries(log, id);
    NoRun(log, id);
    var f, l := RunEnds(log, id);
    OneFirst(log, id, first, f);
    OneLast(log, id, last, l);
    assert RunOk(run);
    LatestRequestIsFirst(run);
    ApproverOfLatest(run);
    AcceptedAt(h, log, first);
  }

  /** With a run id, for any permitted states: the gate opens exactly when the run exists, is of the
      presented command and, if a hash is given, carries it, stands in a permitted state, and is confirmed
      where its recorded risk is L3 or L4. The permit is that run's. */
  lemma GateForNamedRun(h: Host, log: Log, claim: Claim, permitted: set<Status>)
    requires Good(h, log) && claim.runId.Some? && claim.runId.value != ""
    ensures var gate := Gate(h, log, claim, permitted);
            && (gate.Ok? <==> exists first: nat, last: nat ::
                                Names(h, log, claim, permitted, claim.runId.value, first, last))
            && forall first: nat, last: nat | Names(h, log, claim, permitted, claim.runId.value, first, last) ::
                 gate == Ok(PermitFor(log[first].body, log[last].body.approvedBy))
  {
    var id := claim.runId.value;
    NoRun(log, id);
    if RunEntries(log, id) != [] {
      var f, l := RunEnds(log, id);
      assert RunOk(RunEntries(log, id));
      LatestRequestIsFirst(RunEntries(log, id));
      if h.normalize(claim.command) == Some(log[f].body.command) && h.classify(log[f].body.command).Some? {
        ChecksOnRun(h, log, id, claim, permitted, f, l);
      }
      forall first: nat, last: nat | Names(h, log, claim, permitted, id, first, last) ensures first == f && last == l {
        OneFirst(log, id, first, f);
        OneLast(log, id, last, l);
      }
    }
  }

  /** A run id that the log does not know. */
  lemma UnknownRunIsRefused(h: Host, log: Log, claim: Claim, permitted: set<Status>, command: string)
    requires claim.runId.Some? && claim.runId.value != "" && NoEntryOf(log, claim.runId.value)
    requires h.normalize(claim.command) == Some(command) && h.classify(command).Some?
    ensures Gate(h, log, claim, permitted) == Err(UnknownRun)
  {
    NoRun(log, claim.runId.value);
  }

  /** Why the gate refuses a run that the log knows: another command, another hash, its state, or the
      missing confirmation, in this order. */
  lemma NamedRunRefusals(h: Host, log: Log, claim: Claim, permitted: set<Status>, command: string, first: nat,
                         last: nat)
    requires Good(h, log) && claim.runId.Some? && claim.runId.value != ""
    requires FirstAt(log, claim.runId.value, first) && LastAt(log, claim.runId.value, last)
    requires h.normalize(claim.command) == Some(command) && h.classify(command).Some?
    ensures var (gate, request, status) := (Gate(h, log, claim, permitted), log[first].body, log[last].body.status);
            if request.command != command then gate == Err(CommandMismatch)
            else if Truthy(claim.executionHash) && claim.executionHash.value != request.executionHash
            then gate == Err(HashArgumentMismatch)
            else if status !in permitted then gate == Err(WrongState(status))
            else if request.risk in {L3, L4} && !claim.confirm then gate == Err(ConfirmationMissing)
            else gate.Ok?
  {
    var id := claim.runId.value;
    NoRun(log, id);
    var f, l := RunEnds(log, id);
    OneFirst(log, id, first, f);
    OneLast(log, id, last, l);
    assert RunOk(RunEntries(log, id));
    LatestRequestIsFirst(RunEntries(log, id));
    AcceptedAt(h, log, f);
  }

  // ---------------------------------------------------------------- the gate for a hash, and for nothing

  predicate HashMatches(e: Entry, command: string, executionHash: string) {
    e.body.status == Requested && e.body.command == command && e.body.executionHash == executionHash
  }

  /** The first request of the command that carries the hash. */
  predicate FirstWithHash(log: Log, command: string, executionHash: string, i: nat) {
    && i < |log| && HashMatches(log[i], command, executionHash)
    && forall k | 0 <= k < i :: !HashMatches(log[k], command, executionHash)
  }

  lemma {:induction false} RequestByHashIsFirst(log: Log, command: string, executionHash: string) returns (i: nat)
    ensures RequestByHash(log, command, executionHash).Some? ==>
              FirstWithHash(log, command, executionHash, i)
              && RequestByHash(log, command, executionHash) == Some(log[i])
    ensures RequestByHash(log, command, executionHash).None? <==>
              forall k | 0 <= k < |log| :: !HashMatches(log[k], command, executionHash)
  {
    i := 0;
    if log != [] && !HashMatches(log[0], command, executionHash) {
      var rest := log[1..];
      var j := RequestByHashIsFirst(rest, command, executionHash);
      i := j + 1;
      assert forall k | 1 <= k < |log| :: log[k] == rest[k - 1];
    }
  }

  /** In a good log a request is the first entry of its run. */
  lemma RequestIsFirst(h: Host, log: Log, i: nat)
    requires Good(h, log) && i < |log| && log[i].body.status == Requested
    ensures FirstAt(log, log[i].body.runId, i)
  {
    var id := log[i].body.runId;
    forall k | 0 <= k < i ensures log[k].body.runId != id {
      if log[k].body.runId == id {
        SecondInRun(log, id, k, i);
        var m :| 1 <= m < |RunEntries(log, id)| && RunEntries(log, id)[m] == log[i];
        OnlyFirstIsRequested(RunEntries(log, id), m);
      }
    }
  }

  lemma OnlyFirstIsRequested(run: Log, m: nat)
    requires RunOk(run) && 1 <= m < |run|
    ensures run[m].body.status != Requested
  {
    assert Edge(run[m - 1].body.status, run[m - 1 + 1].body.status);
  }

  lemma {:induction false} SecondInRun(log: Log, id: string, k: nat, i: nat)
    requires k < i < |log| && log[k].body.runId == id && log[i].body.runId == id
    ensures exists m | 1 <= m < |RunEntries(log, id)| :: RunEntries(log, id)[m] == log[i]
  {
    var n := |log| - 1;
    var init := log[..n];
    if i == n {
      NoRun(init, id);
      assert init[k].body.runId == id;
      assert RunEntries(log, id)[|RunEntries(init, id)|] == log[i];
    } else {
      SecondInRun(init, id, k, i);
      var m :| 1 <= m < |RunEntries(init, id)| && RunEntries(init, id)[m] == init[i];
      assert RunEntries(log, id)[m] == log[i];
    }
  }

  /** With a hash and no run id, for any permitted states: the gate takes the first request of the command
      that carries the hash, and opens exactly when its run stands in a permitted state and is confirmed
      where its risk is L3 or L4. */
  lemma GateForHash(h: Host, log: Log, claim: Claim, permitted: set<Status>, command: string)
    requires Good(h, log) && !Truthy(claim.runId) && claim.executionHash.Some? && claim.executionHash.value != ""
    requires h.normalize(claim.command) == Some(command) && h.classify(command).Some?
    ensures var (gate, hash) := (Gate(h, log, claim, permitted), claim.executionHash.value);
            && (gate == Err(NoMatchingRequest) <==> forall k | 0 <= k < |log| :: !HashMatches(log[k], command, hash))
            && forall i: nat, last: nat |
                 FirstWithHash(log, command, hash, i) && LastAt(log, log[i].body.runId, last) ::
                 && (gate.Ok? <==>
                       log[last].body.status in permitted && (log[i].body.risk in {L3, L4} ==> claim.confirm))
                 && (gate.Ok? ==> gate.value == PermitFor(log[i].body, log[last].body.approvedBy))
  {
    var hash := claim.executionHash.value;
    var f := RequestByHashIsFirst(log, command, hash);
    if RequestByHash(log, command, hash).Some? {
      RequestIsFirst(h, log, f);
      var id := log[f].body.runId;
      NoRun(log, id);
      var first, l := RunEnds(log, id);
      ChecksOnRun(h, log, id, claim, permitted, f, l);
      forall i: nat, last: nat | FirstWithHash(log, command, hash, i) && LastAt(log, log[i].body.runId, last)
        ensures i == f && last == l
      {
        assert i == f;
        OneLast(log, id, last, l);
      }
    }
  }

  /** A request of the command whose run is in a permitted state. */
  predicate CandidateAt(log: Log, command: string, permitted: set<Status>, i: nat) {
    && i < |log| && log[i].body.status == Requested && log[i].body.command == command
    && InState(log, log[i].body.runId, permitted)
  }

  /** The last of them before position n. */
  predicate LastCandidateAt(log: Log, command: string, permitted: set<Status>, n: nat, i: nat) {
    && i < n && CandidateAt(log, command, permitted, i)
    && forall k: nat | i < k < n :: !CandidateAt(log, command, permitted, k)
  }

  ghost predicate IsLastCandidate(log: Log, command: string, permitted: set<Status>, n: nat, id: Option<string>) {
    match id
    case None => forall k: nat | k < n :: !CandidateAt(log, command, permitted, k)
    case Some(r) => exists i: nat :: LastCandidateAt(log, command, permitted, n, i) && log[i].body.runId == r
  }

  function LastOf(ids: seq<string>): Option<string> {
    if ids == [] then None else Some(ids[|ids| - 1])
  }

  lemma KeptIdsSnoc(log: Log, ids: seq<string>, id: string, permitted: set<Status>)
    ensures LastOf(IdsInState(log, ids + [id], permitted))
            == if InState(log, id, permitted) then Some(id) else LastOf(IdsInState(log, ids, permitted))
  {
    assert (ids + [id])[..|ids|] == ids;
  }

  lemma CandidateGrows(log: Log, command: string, permitted: set<Status>, n: nat, id: Option<string>)
    requires n < |log| && IsLastCandidate(log, command, permitted, n, id)
    ensures IsLastCandidate(log, command, permitted, n + 1,
                            if CandidateAt(log, command, permitted, n) then Some(log[n].body.runId) else id)
  {
    if CandidateAt(log, command, permitted, n) {
      assert LastCandidateAt(log, command, permitted, n + 1, n);
    } else if id.Some? {
      var i: nat :| LastCandidateAt(log, command, permitted, n, i) && log[i].body.runId == id.value;
      assert LastCandidateAt(log, command, permitted, n + 1, i);
    }
  }

  /** The last id kept from the first n entries. */
  function KeptUpTo(log: Log, command: string, permitted: set<Status>, n: nat): Option<string>
    requires n <= |log|
  {
    LastOf(IdsInState(log, MatchingRunIds(log[..n], command, None), permitted))
  }

  lemma KeptGrows(log: Log, command: string, permitted: set<Status>, n: nat)
    requires n < |log|
    ensures KeptUpTo(log, command, permitted, n + 1)
            == if CandidateAt(log, command, permitted, n) then Some(log[n].body.runId)
               else KeptUpTo(log, command, permitted, n)
  {
    var ids, e := MatchingRunIds(log[..n], command, None), log[n];
    assert log[..n + 1][..n] == log[..n];
    assert MatchingRunIds(log[..n + 1], command, None) == if Matches(e, command) then ids + [e.body.runId] else ids;
    if Matches(e, command) {
      KeptIdsSnoc(log, ids, e.body.runId, permitted);
    }
  }

  lemma {:induction false} LastKeptIsLastCandidate(log: Log, command: string, permitted: set<Status>, n: nat)
    requires n <= |log|
    ensures IsLastCandidate(log, command, permitted, n, KeptUpTo(log, command, permitted, n))
  {
    if n > 0 {
      LastKeptIsLastCandidate(log, command, permitted, n - 1);
      CandidateGrows(log, command, permitted, n - 1, KeptUpTo(log, command, permitted, n - 1));
      KeptGrows(log, command, permitted, n - 1);
    }
  }

  /** The run an empty run id selects is that of the last request of the command whose run is in a
      permitted state. */
  lemma EmptyRunIdTakesTheLast(log: Log, command: string, permitted: set<Status>)
    ensures IsLastCandidate(log, command, permitted, |log|, LatestOf(log, command, permitted))
  {
    LastKeptIsLastCandidate(log, command, permitted, |log|);
    assert log[..|log|] == log;
  }

  /** A command that needs no approval, presented with neither run id nor hash, always passes, with a permit
      that names no run. */
  lemma GateForFreeCommand(h: Host, log: Log, claim: Claim, permitted: set<Status>, command: string)
    requires !Truthy(claim.runId) && !Truthy(claim.executionHash)
    requires h.normalize(claim.command) == Some(command)
    requires h.classify(command).Some? && h.classify(command).value.risk !in {L2, L3, L4}
    ensures var policy := h.classify(command).value;
            Gate(h, log, claim, permitted)
            == Ok(Permit(command, policy.action, policy.risk, false, false, "", "", "", 0, map[], ""))
  {
  }

  /** A command that cannot be normalised or classified never passes. */
  lemma GateForUnparsable(h: Host, log: Log, claim: Claim, permitted: set<Status>)
    requires h.normalize(claim.command).None? || h.classify(h.normalize(claim.command).value).None?
    ensures Gate(h, log, claim, permitted) == Err(BadCommand)
  {
  }

  // ---------------------------------------------------------------- finalising

  /** The command's output shows success: it exited with zero, reports no errors, and changed as many
      records as expected, where errors and changes are reported at all and some are expected. */
  predicate OutputPasses(o: Output, expectedRecords: int) {
    && o.exitCode == 0
    && o.errors in {None, Some(0)}
    && (expectedRecords > 0 ==> o.mutated in {None, Some(expectedRecords)})
  }

  lemma PassesIff(o: Output, expectedRecords: int)
    ensures VerificationPassed(o, expectedRecords) <==> OutputPasses(o, expectedRecords)
  {
  }

  /** What is written once the gate has let the claim through. */
  lemma FinalTransition(h: Host, log: Log, claim: Claim, output: Output, reason: string, timestamp: string)
    requires Gate(h, log, claim, {Executed}).Ok?
    requires var run := RunEntries(log, Gate(h, log, claim, {Executed}).value.runId);
             run != [] && LatestStatus(run) == Executed
    ensures var permit := Gate(h, log, claim, {Executed}).value;
            var passed := VerificationPassed(output, permit.expectedRecords);
            ApplyRead(h, log, Finalize(claim, output, reason, timestamp))
            == Transition(h, log, RunEntries(log, permit.runId), if passed then Completed else Failed, "",
                          Note(if passed then "" else reason, timestamp), JObject(output.report))
  {
  }

  lemma FinalWrites(h: Host, log: Log, id: string, last: nat, passed: bool, reason: string, timestamp: string,
                    report: map<string, Json>)
    requires Good(h, log) && LastAt(log, id, last) && log[last].body.status == Executed
    ensures var status := if passed then Completed else Failed;
            var notes := if passed then "" else reason;
            var after := Transition(h, log, RunEntries(log, id), status, "", Note(notes, timestamp), JObject(report));
            after.Ok? && Writes(h, log, after.value, id, status, log[last].body.approvedBy, notes, timestamp,
                                JObject(report))
  {
    LastOfRun(log, id, last);
    TransitionWrites(h, log, id, if passed then Completed else Failed, "",
                     Note(if passed then "" else reason, timestamp), JObject(report));
  }

  lemma LastOfRun(log: Log, id: string, last: nat)
    requires LastAt(log, id, last)
    ensures var run := RunEntries(log, id); run != [] && run[|run| - 1] == log[last]
  {
    NoRun(log, id);
    var f, l := RunEnds(log, id);
    OneLast(log, id, l, last);
  }

  /** Once the gate has let a claim through, its run is completed or failed. */
  lemma FinalizesRun(h: Host, log: Log, claim: Claim, output: Output, reason: string, timestamp: string, last: nat)
    requires Good(h, log) && Gate(h, log, claim, {Executed}).Ok?
    requires var id := Gate(h, log, claim, {Executed}).value.runId;
             LastAt(log, id, last) && log[last].body.status == Executed
    ensures var permit := Gate(h, log, claim, {Executed}).value;
            var passed := OutputPasses(output, permit.expectedRecords);
            Writes(h, log, After(h, log, Finalize(claim, output, reason, timestamp)), permit.runId,
                   if passed then Completed else Failed, log[last].body.approvedBy,
                   if passed then "" else reason, timestamp, JObject(output.report))
  {
    var permit := Gate(h, log, claim, {Executed}).value;
    var passed := OutputPasses(output, permit.expectedRecords);
    LastOfRun(log, permit.runId, last);
    PassesIff(output, permit.expectedRecords);
    FinalTransition(h, log, claim, output, reason, timestamp);
    FinalWrites(h, log, permit.runId, last, passed, reason, timestamp, output.report);
    AfterRead(h, log, Finalize(claim, output, reason, timestamp));
  }

  /** Finalising a named run appends one completed or failed entry, by the output alone, exactly when the
      run stands executed, is of the presented command and hash, and is confirmed where its risk asks for
      it. The entry keeps the run's approver and records the report. */
  lemma FinalizeTable(h: Host, log: Log, claim: Claim, output: Output, reason: string, timestamp: string)
    requires Good(h, log) && claim.runId.Some? && claim.runId.value != ""
    ensures var (id, op) := (claim.runId.value, Finalize(claim, output, reason, timestamp));
            && (After(h, log, op) != log
                <==> exists first: nat, last: nat :: Names(h, log, claim, {Executed}, id, first, last))
            && forall first: nat, last: nat | Names(h, log, claim, {Executed}, id, first, last) ::
                 var passed := OutputPasses(output, log[first].body.expectedRecords);
                 Writes(h, log, After(h, log, op), id, if passed then Completed else Failed, log[last].body.approvedBy,
                        if passed then "" else reason, timestamp, JObject(output.report))
  {
    var id := claim.runId.value;
    GateForNamedRun(h, log, claim, {Executed});
    forall first: nat, last: nat | Names(h, log, claim, {Executed}, id, first, last)
      ensures var passed := OutputPasses(output, log[first].body.expectedRecords);
              Writes(h, log, After(h, log, Finalize(claim, output, reason, timestamp)), id,
                     if passed then Completed else Failed, log[last].body.approvedBy,
                     if passed then "" else reason, timestamp, JObject(output.report))
    {
      FinalizesRun(h, log, claim, output, reason, timestamp, last);
    }
  }

  /** Whatever is claimed, finalising only ever appends a completed or failed entry of a run that stands
      executed. */
  lemma FinalizeOnlyExecuted(h: Host, log: Log, claim: Claim, output: Output, reason: string, timestamp: string)
    requires Good(h, log) && After(h, log, Finalize(claim, output, reason, timestamp)) != log
    ensures var after := After(h, log, Finalize(claim, output, reason, timestamp));
            && |after| == |log| + 1 && after[..|log|] == log && after[|log|].body.status in {Completed, Failed}
            && Stands(log, after[|log|].body.runId, Executed)
  {
    FinalizeNeedsExecuted(h, log, claim, output, reason, timestamp);
    var id := Gate(h, log, claim, {Executed}).value.runId;
    StandsIff(log, id, Executed);
    var last: nat :| LastAt(log, id, last) && log[last].body.status == Executed;
    FinalizesRun(h, log, claim, output, reason, timestamp, last);
    WritesToRun(h, log, After(h, log, Finalize(claim, output, reason, timestamp)), id);
  }

  lemma FinalizeNeedsExecuted(h: Host, log: Log, claim: Claim, output: Output, reason: string, timestamp: string)
    requires After(h, log, Finalize(claim, output, reason, timestamp)) != log
    ensures Gate(h, log, claim, {Executed}).Ok?
    ensures var run := RunEntries(log, Gate(h, log, claim, {Executed}).value.runId);
            run != [] && LatestStatus(run) == Executed
  {
  }

  lemma WritesToRun(h: Host, log: Log, after: Log, id: string)
    requires |after| == |log| + 1 && exists i: nat :: FirstAt(log, id, i) && Repeats(after[|log|].body, log[i].body)
    ensures after[|log|].body.runId == id
  {
  }
}
