/** The hash-chained approval log: its entries, what `validate_entries` accepts, and the locked
    operations that grow it (scripts/approval_pipeline.py). */
module ApprovalLog {
  import opened Common
  import opened CommandRisk

  // ---------------------------------------------------------------- data

  datatype Status =
    Requested | Approved | Rejected | Executed | Completed | Failed | UnknownStatus(text: string)

  datatype Json =
    JNull | JBool(b: bool) | JInt(n: int) | JString(s: string)
    | JList(items: seq<Json>) | JObject(fields: map<string, Json>)

  /** The optional fields of an entry. */
  datatype Details = Details(
    notes: string,
    expectedImpact: string,
    scope: seq<string>,
    approvalRequired: bool,
    confirmationRequired: bool,
    verification: Json)

  /** Everything an entry hash covers. */
  datatype Body = Body(
    status: Status,
    action: string,
    runId: string,
    callId: string,
    risk: Risk,
    command: string,
    executionHash: string,
    approvedBy: string,
    expectedRecords: int,
    queryFilter: map<string, Json>,
    timestamp: string,
    prevHash: string,
    details: Details)

  datatype Entry = Entry(body: Body, hash: string)

  type Log = seq<Entry>

  /** SHA-256, canonical JSON, `normalize_command` and `classify_command` as functions of their
      input (None when they raise). The results about the log hold whatever these functions are;
      CommandRisk gives the last two. */
  datatype Host = Host(
    sha256: string -> string,
    canonical: Body -> string,
    normalize: string -> Option<string>,
    classify: string -> Option<Policy>)

  function Zeros(n: nat): (s: string)
    ensures |s| == n && forall i | 0 <= i < n :: s[i] == '0'
  {
    if n == 0 then "" else Zeros(n - 1) + "0"
  }

  /** The host whose normalisation and classification are those of CommandRisk. */
  function HostOf(sha256: string -> string, canonical: Body -> string, sh: Shell): Host {
    Host(sha256, canonical, (c: string) => Normalize(sh, c), (c: string) => Classify(sh, c))
  }

  const GENESIS_HASH: string := Zeros(64)

  datatype LogError =
    | InvalidSchema
    | BrokenChain
    | HashMismatch
    | InvalidExecutionHash
    | UnparsableCommand
    | MissingRequest
    | ForeignExecutionHash

  datatype ApprovalError =
    | Unreadable(index: nat, reason: LogError)
    | BadCommand
    | BadRisk(risk: RiskError)
    | BadEntry
    | UnknownRun
    | RunWithoutRequest
    | WrongState(status: Status)
    | UnsupportedStatus
    | CommandMismatch
    | HashArgumentMismatch
    | StoredHashInvalid
    | NoMatchingRequest
    | NoneExecutable
    | SeveralMatch
    | ConfirmationMissing

  // ---------------------------------------------------------------- hashing and validation

  function ExecutionHash(h: Host, command: string, runId: string, timestamp: string): Option<string> {
    match h.normalize(command)
    case None => None
    case Some(normalized) => Some(h.sha256(normalized + runId + timestamp))
  }

  function EntryHash(h: Host, body: Body, prevHash: string): string {
    h.sha256(h.canonical(body) + prevHash)
  }

  function HeadHash(log: Log): string {
    if log == [] then GENESIS_HASH else log[|log| - 1].hash
  }

  predicate HexDigit(c: char) {
    '0' <= c <= '9' || 'a' <= c <= 'f'
  }

  predicate ValidSchema(b: Body) {
    && !b.status.UnknownStatus?
    && Known(b.risk)
    && |b.executionHash| == 64
    && (forall i | 0 <= i < 64 :: HexDigit(b.executionHash[i]))
    && (b.details.verification.JNull? || b.details.verification.JObject?)
  }

  /** The entries of one run, in log order. */
  function RunEntries(log: Log, runId: string): Log {
    if log == [] then []
    else
      var last := log[|log| - 1];
      RunEntries(log[..|log| - 1], runId) + if last.body.runId == runId then [last] else []
  }

  function FirstRequested(run: Log): Option<Entry> {
    if run == [] then None
    else if run[0].body.status == Requested then Some(run[0])
    else FirstRequested(run[1..])
  }

  function LatestRequested(run: Log): Option<Entry> {
    if run == [] then None
    else if run[|run| - 1].body.status == Requested then Some(run[|run| - 1])
    else LatestRequested(run[..|run| - 1])
  }

  /** Why `validate_entries` refuses `e` after the entries of `prefix`; None when it does not. */
  function Refusal(h: Host, prefix: Log, e: Entry): Option<LogError> {
    var prevHash := HeadHash(prefix);
    if !ValidSchema(e.body) then Some(InvalidSchema)
    else if e.body.prevHash != prevHash then Some(BrokenChain)
    else if e.hash != EntryHash(h, e.body, prevHash) then Some(HashMismatch)
    else if e.body.status == Requested then
      match ExecutionHash(h, e.body.command, e.body.runId, e.body.timestamp)
      case None => Some(UnparsableCommand)
      case Some(expected) => if e.body.executionHash != expected then Some(InvalidExecutionHash) else None
    else
      match LatestRequested(RunEntries(prefix, e.body.runId))
      case None => Some(MissingRequest)
      case Some(request) =>
        if e.body.executionHash != request.body.executionHash then Some(ForeignExecutionHash) else None
  }

  /** What `validate_entries` accepts: no entry is refused after those before it. */
  predicate Accepted(h: Host, log: Log) {
    log == [] || (Accepted(h, log[..|log| - 1]) && Refusal(h, log[..|log| - 1], log[|log| - 1]).None?)
  }

  lemma {:induction false} AcceptedPrefix(h: Host, log: Log, n: nat)
    requires Accepted(h, log) && n <= |log|
    ensures Accepted(h, log[..n])
  {
    if n == |log| {
      assert log[..n] == log;
    } else {
      var init := log[..|log| - 1];
      AcceptedPrefix(h, init, n);
      assert init[..n] == log[..n];
    }
  }

  lemma AcceptedAt(h: Host, log: Log, i: nat)
    requires Accepted(h, log) && i < |log|
    ensures Refusal(h, log[..i], log[i]).None?
  {
    AcceptedPrefix(h, log, i + 1);
    assert log[..i + 1][..i] == log[..i];
  }

  lemma RunEntriesSnoc(log: Log, e: Entry, runId: string)
    ensures RunEntries(log + [e], runId)
            == if e.body.runId == runId then RunEntries(log, runId) + [e] else RunEntries(log, runId)
  {
    assert (log + [e])[..|log|] == log;
  }

  lemma LatestRequestedSnoc(run: Log, e: Entry)
    ensures LatestRequested(run + [e]) == if e.body.status == Requested then Some(e) else LatestRequested(run)
  {
    assert (run + [e])[..|run|] == run;
  }

  lemma AcceptedSnoc(h: Host, log: Log, e: Entry)
    ensures Accepted(h, log + [e]) <==> Accepted(h, log) && Refusal(h, log, e).None?
  {
    assert (log + [e])[..|log|] == log;
  }

  /** The dictionary `run_requests`: the latest request of every run that has one. */
  ghost predicate Tracks(requests: map<string, Entry>, log: Log) {
    forall id :: LatestRequested(RunEntries(log, id)) == if id in requests then Some(requests[id]) else None
  }

  lemma TracksSnoc(requests: map<string, Entry>, log: Log, e: Entry)
    requires Tracks(requests, log)
    ensures Tracks(if e.body.status == Requested then requests[e.body.runId := e] else requests, log + [e])
  {
    forall id ensures LatestRequested(RunEntries(log + [e], id))
                      == if e.body.status == Requested && e.body.runId == id then Some(e)
                         else LatestRequested(RunEntries(log, id))
    {
      RunEntriesSnoc(log, e, id);
      LatestRequestedSnoc(RunEntries(log, id), e);
    }
  }

  /** The loop body's checks, against the carried hash and dictionary instead of the prefix. */
  function Check(h: Host, prevHash: string, requests: map<string, Entry>, e: Entry): Option<LogError> {
    if !ValidSchema(e.body) then Some(InvalidSchema)
    else if e.body.prevHash != prevHash then Some(BrokenChain)
    else if e.hash != EntryHash(h, e.body, prevHash) then Some(HashMismatch)
    else if e.body.status == Requested then
      match ExecutionHash(h, e.body.command, e.body.runId, e.body.timestamp)
      case None => Some(UnparsableCommand)
      case Some(expected) => if e.body.executionHash != expected then Some(InvalidExecutionHash) else None
    else if e.body.runId !in requests then Some(MissingRequest)
    else if e.body.executionHash != requests[e.body.runId].body.executionHash then Some(ForeignExecutionHash)
    else None
  }

  /** `validate_entries`: one pass, carrying the previous hash and the latest request of each run.
      It accepts exactly the accepted logs and otherwise names the first refused entry. */
  method ValidateEntries(h: Host, entries: Log) returns (r: Result<(), ApprovalError>)
    ensures r.Ok? <==> Accepted(h, entries)
    ensures r.Err? ==> r.error.Unreadable? && r.error.index < |entries|
                       && Accepted(h, entries[..r.error.index])
                       && Refusal(h, entries[..r.error.index], entries[r.error.index]) == Some(r.error.reason)
  {
    var prevHash := GENESIS_HASH;
    var requests: map<string, Entry> := map[];
    for i := 0 to |entries|
      invariant prevHash == HeadHash(entries[..i])
      invariant Accepted(h, entries[..i])
      invariant Tracks(requests, entries[..i])
    {
      var e := entries[i];
      ghost var prefix := entries[..i];
      assert Tracks(requests, prefix);
      var refusal := Check(h, prevHash, requests, e);
      assert refusal == Refusal(h, prefix, e);
      if refusal.Some? {
        RefusedSuffix(h, entries, i);
        return Err(Unreadable(i, refusal.value));
      }
      TracksSnoc(requests, prefix, e);
      if e.body.status == Requested {
        requests := requests[e.body.runId := e];
      }
      assert entries[..i + 1] == prefix + [e];
      AcceptedSnoc(h, prefix, e);
      prevHash := e.hash;
    }
    assert entries[..|entries|] == entries;
    r := Ok(());
  }

  lemma RefusedSuffix(h: Host, log: Log, i: nat)
    requires i < |log| && Refusal(h, log[..i], log[i]).Some?
    ensures !Accepted(h, log)
  {
    if Accepted(h, log) {
      AcceptedAt(h, log, i);
    }
  }

  // ---------------------------------------------------------------- building entries

  /** `get_effective_approved_by`: the latest non-empty approver of a run. */
  function EffectiveApprover(run: Log): string {
    if run == [] then ""
    else if run[|run| - 1].body.approvedBy != "" then run[|run| - 1].body.approvedBy
    else EffectiveApprover(run[..|run| - 1])
  }

  /** A new log line's payload: what the caller chooses besides the copied fields. */
  datatype Note = Note(text: string, timestamp: string)

  /** `create_transition_entry` from the run's first requested entry. */
  function TransitionBody(run: Log, request: Entry, status: Status, approvedBy: string,
                          note: Note, verification: Json): Body {
    Body(
      status,
      request.body.action,
      request.body.runId,
      request.body.callId,
      request.body.risk,
      request.body.command,
      request.body.executionHash,
      if approvedBy != "" then approvedBy else EffectiveApprover(run),
      request.body.expectedRecords,
      request.body.queryFilter,
      note.timestamp,
      "",
      Details(
        note.text,
        request.body.details.expectedImpact,
        request.body.details.scope,
        request.body.details.approvalRequired,
        request.body.details.confirmationRequired,
        verification))
  }

  function Chained(h: Host, log: Log, body: Body): Entry {
    var linked := body.(prevHash := HeadHash(log));
    Entry(linked, EntryHash(h, linked, HeadHash(log)))
  }

  /** `_append_entry_locked`. */
  function Append(h: Host, log: Log, body: Body): Result<Log, ApprovalError> {
    var e := Chained(h, log, body);
    if ValidSchema(e.body) then Ok(log + [e]) else Err(BadEntry)
  }

  function Transition(h: Host, log: Log, run: Log, status: Status, approvedBy: string,
                      note: Note, verification: Json): Result<Log, ApprovalError> {
    match FirstRequested(run)
    case None => Err(RunWithoutRequest)
    case Some(request) => Append(h, log, TransitionBody(run, request, status, approvedBy, note, verification))
  }

  /** What a caller asks `create_request_entry` for; `fresh` are the ids `new_id` would draw. */
  datatype RunRequest = RunRequest(
    command: string,
    action: Option<string>,
    requestedRisk: Option<Risk>,
    runId: Option<string>,
    callId: Option<string>,
    freshRunId: string,
    freshCallId: string,
    notes: string,
    impact: string,
    scope: seq<string>,
    expectedRecords: int,
    queryFilter: map<string, Json>,
    timestamp: string)

  function EffectiveRunId(q: RunRequest): string {
    if Truthy(q.runId) then q.runId.value else q.freshRunId
  }

  /** `create_request_entry`. */
  function RequestBody(h: Host, q: RunRequest): Result<Body, ApprovalError> {
    match h.normalize(q.command)
    case None => Err(BadCommand)
    case Some(command) =>
      match h.classify(command)
      case None => Err(BadCommand)
      case Some(policy) =>
        match CoerceRisk(policy.risk, q.requestedRisk)
        case Err(e) => Err(BadRisk(e))
        case Ok(risk) =>
          match ExecutionHash(h, command, EffectiveRunId(q), q.timestamp)
          case None => Err(BadCommand)
          case Some(executionHash) =>
            Ok(Body(
              Requested,
              if Truthy(q.action) then q.action.value else policy.action,
              EffectiveRunId(q),
              if Truthy(q.callId) then q.callId.value else q.freshCallId,
              risk,
              command,
              executionHash,
              "",
              q.expectedRecords,
              q.queryFilter,
              q.timestamp,
              "",
              Details(q.notes, q.impact, q.scope, RequiresApproval(risk), RequiresConfirmation(risk), JNull)))
  }

  // ---------------------------------------------------------------- the execution gate

  datatype Permit = Permit(
    command: string,
    action: string,
    risk: Risk,
    approvalRequired: bool,
    confirmationRequired: bool,
    runId: string,
    callId: string,
    executionHash: string,
    expectedRecords: int,
    queryFilter: map<string, Json>,
    approvedBy: string)

  /** What a caller presents to the gate. */
  datatype Claim = Claim(command: string, runId: Option<string>, executionHash: Option<string>, confirm: bool)

  function MatchingRunIds(log: Log, command: string, runId: Option<string>): seq<string> {
    if log == [] then []
    else
      var e := log[|log| - 1];
      MatchingRunIds(log[..|log| - 1], command, runId) +
      if e.body.status == Requested && e.body.command == command
         && !(Truthy(runId) && e.body.runId != runId.value)
      then [e.body.runId] else []
  }

  function LatestStatus(run: Log): Status
    requires run != []
  {
    run[|run| - 1].body.status
  }

  function RunsInState(log: Log, ids: seq<string>, permitted: set<Status>): seq<Log> {
    if ids == [] then []
    else
      var run := RunEntries(log, ids[|ids| - 1]);
      RunsInState(log, ids[..|ids| - 1], permitted) +
      if run != [] && LatestStatus(run) in permitted then [run] else []
  }

  /** What `resolve_pending_approval` returns. */
  function Resolved(log: Log, command: string, runId: Option<string>, permitted: set<Status>)
    : Result<Log, ApprovalError>
  {
    var ids := MatchingRunIds(log, command, runId);
    var runs := RunsInState(log, ids, permitted);
    if ids == [] then Err(NoMatchingRequest)
    else if runs == [] then Err(NoneExecutable)
    else if |runs| > 1 && runId.None? then Err(SeveralMatch)
    else Ok(runs[|runs| - 1])
  }

  lemma {:induction false} MatchingIdsHaveEntries(log: Log, command: string, runId: Option<string>, id: string)
    requires id in MatchingRunIds(log, command, runId)
    ensures RunEntries(log, id) != []
  {
    var init := log[..|log| - 1];
    if id in MatchingRunIds(init, command, runId) {
      MatchingIdsHaveEntries(init, command, runId, id);
    }
  }

  /** `resolve_pending_approval`: collect the run ids of matching requests, then the runs that are
      in a permitted state. */
  method ResolvePendingApproval(entries: Log, command: string, runId: Option<string>, permitted: set<Status>)
    returns (r: Result<Log, ApprovalError>)
    ensures r == Resolved(entries, command, runId, permitted)
  {
    var matching: seq<string> := [];
    for i := 0 to |entries|
      invariant matching == MatchingRunIds(entries[..i], command, runId)
    {
      var e := entries[i];
      assert entries[..i + 1][..i] == entries[..i];
      if e.body.status == Requested && e.body.command == command
         && !(Truthy(runId) && e.body.runId != runId.value) {
        matching := matching + [e.body.runId];
      }
    }
    assert entries[..|entries|] == entries;
    if matching == [] {
      return Err(NoMatchingRequest);
    }
    var runs: seq<Log> := [];
    for k := 0 to |matching|
      invariant runs == RunsInState(entries, matching[..k], permitted)
    {
      assert matching[..k + 1][..k] == matching[..k];
      MatchingIdsHaveEntries(entries, command, runId, matching[k]);
      var run := RunEntries(entries, matching[k]);
      if LatestStatus(run) in permitted {
        runs := runs + [run];
      }
    }
    assert matching[..|matching|] == matching;
    if runs == [] {
      return Err(NoneExecutable);
    }
    if |runs| > 1 && runId.None? {
      return Err(SeveralMatch);
    }
    r := Ok(runs[|runs| - 1]);
  }

  /** The first request with this command and execution hash. */
  function RequestByHash(log: Log, command: string, executionHash: string): Option<Entry> {
    if log == [] then None
    else if log[0].body.status == Requested && log[0].body.command == command
            && log[0].body.executionHash == executionHash then Some(log[0])
    else RequestByHash(log[1..], command, executionHash)
  }

  /** `_resolve_explicit_run`: Ok(None) when neither a run id nor a hash is given. */
  function ExplicitRun(log: Log, command: string, claim: Claim): Result<Option<Log>, ApprovalError> {
    if Truthy(claim.runId) then
      var run := RunEntries(log, claim.runId.value);
      if run == [] then Err(UnknownRun)
      else match FirstRequested(run)
           case None => Err(RunWithoutRequest)
           case Some(request) =>
             if request.body.command != command then Err(CommandMismatch)
             else if Truthy(claim.executionHash) && claim.executionHash.value != request.body.executionHash
             then Err(HashArgumentMismatch)
             else Ok(Some(run))
    else if !Truthy(claim.executionHash) then Ok(None)
    else match RequestByHash(log, command, claim.executionHash.value)
         case None => Err(NoMatchingRequest)
         case Some(e) => Ok(Some(RunEntries(log, e.body.runId)))
  }

  /** The checks on the run the gate settled on, and the permit it then issues. */
  function GateChecks(h: Host, run: Log, command: string, claim: Claim, permitted: set<Status>)
    : Result<Permit, ApprovalError>
  {
    match FirstRequested(run)
    case None => Err(RunWithoutRequest)
    case Some(request) =>
      var b := request.body;
      if LatestStatus(run) !in permitted then Err(WrongState(LatestStatus(run)))
      else if b.command != command then Err(CommandMismatch)
      else if Truthy(claim.executionHash) && claim.executionHash.value != b.executionHash then Err(HashArgumentMismatch)
      else if ExecutionHash(h, b.command, b.runId, b.timestamp) != Some(b.executionHash) then Err(StoredHashInvalid)
      else if !Known(b.risk) then Err(BadEntry)
      else if RequiresConfirmation(b.risk) && !claim.confirm then Err(ConfirmationMissing)
      else Ok(Permit(command, b.action, b.risk, true, RequiresConfirmation(b.risk), b.runId, b.callId,
                     b.executionHash, b.expectedRecords, b.queryFilter, EffectiveApprover(run)))
  }

  /** `_validate_execution_from_entries`. */
  function Gate(h: Host, log: Log, claim: Claim, permitted: set<Status>): Result<Permit, ApprovalError> {
    match h.normalize(claim.command)
    case None => Err(BadCommand)
    case Some(command) =>
      match h.classify(command)
      case None => Err(BadCommand)
      case Some(policy) =>
        match ExplicitRun(log, command, claim)
        case Err(e) => Err(e)
        case Ok(Some(run)) => GateChecks(h, run, command, claim, permitted)
        case Ok(None) =>
          if !policy.approvalRequired then
            Ok(Permit(command, policy.action, policy.risk, policy.approvalRequired,
                      policy.confirmationRequired, "", "", "", 0, map[], ""))
          else match Resolved(log, command, claim.runId, permitted)
               case Err(e) => Err(e)
               case Ok(run) => GateChecks(h, run, command, claim, permitted)
  }

  // ---------------------------------------------------------------- locked operations

  /** What `parse_output_summary` and `infer_mutated_metric` found in a command's output. */
  datatype Output = Output(exitCode: int, errors: Option<int>, mutated: Option<int>, report: map<string, Json>)

  predicate VerificationPassed(o: Output, expectedRecords: int) {
    && o.exitCode == 0
    && (o.errors.Some? ==> o.errors.value == 0)
    && (expectedRecords > 0 && o.mutated.Some? ==> o.mutated.value == expectedRecords)
  }

  datatype Op =
    | Request(q: RunRequest)
    | Approve(id: string, approver: string, note: Note)
    | Reject(id: string, reason: string, rejectedBy: string, timestamp: string)
    | LogExecution(id: string, status: Status, note: Note)
    | Finalize(claim: Claim, output: Output, reason: string, timestamp: string)

  function RejectionNote(reason: string, rejectedBy: string, timestamp: string): Note {
    Note(if rejectedBy == "" then reason else reason + " (by " + rejectedBy + ")", timestamp)
  }

  /** The effect of one locked operation on a log that has just been read. */
  function ApplyRead(h: Host, log: Log, op: Op): Result<Log, ApprovalError> {
    match op
    case Request(q) =>
      (match RequestBody(h, q)
       case Err(e) => Err(e)
       case Ok(body) => Append(h, log, body))
    case Approve(id, approver, note) =>
      var run := RunEntries(log, id);
      if run == [] then Err(UnknownRun)
      else if LatestStatus(run) != Requested then Err(WrongState(LatestStatus(run)))
      else Transition(h, log, run, Approved, approver, note, JNull)
    case Reject(id, reason, rejectedBy, timestamp) =>
      var run := RunEntries(log, id);
      if run == [] then Err(UnknownRun)
      else if LatestStatus(run) !in {Requested, Approved} then Err(WrongState(LatestStatus(run)))
      else Transition(h, log, run, Rejected, "", RejectionNote(reason, rejectedBy, timestamp), JNull)
    case LogExecution(id, status, note) =>
      var run := RunEntries(log, id);
      if status != Executed then Err(UnsupportedStatus)
      else if run == [] then Err(UnknownRun)
      else if LatestStatus(run) != Approved then Err(WrongState(LatestStatus(run)))
      else Transition(h, log, run, Executed, "", note, JNull)
    case Finalize(claim, output, reason, timestamp) =>
      match Gate(h, log, claim, {Executed})
      case Err(e) => Err(e)
      case Ok(permit) =>
        var run := RunEntries(log, permit.runId);
        if run == [] then Err(UnknownRun)
        else if LatestStatus(run) != Executed then Err(WrongState(LatestStatus(run)))
        else if VerificationPassed(output, permit.expectedRecords) then
          Transition(h, log, run, Completed, "", Note("", timestamp), JObject(output.report))
        else
          Transition(h, log, run, Failed, "", Note(reason, timestamp), JObject(output.report))
  }
}
