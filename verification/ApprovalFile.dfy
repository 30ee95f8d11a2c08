/** The approval log as a file that locked operations grow in place. Every method is proved to do
    what the operations of ApprovalLog say, so the results about whole runs are about this class. */
module ApprovalFile {
  import opened Common
  import opened ApprovalLog
  import opened ApprovalHistory

  /** A locked operation changes the log and reports as specified: it appends its one entry, or it
      raises and leaves the file alone. */
  ghost predicate Performs(h: Host, before: Log, op: Op, after: Log, r: Result<Entry, ApprovalError>) {
    && after == After(h, before, op)
    && match r
       case Ok(e) => Accepted(h, before) && after == before + [e] && ApplyRead(h, before, op) == Ok(after)
       case Err(error) =>
         && after == before
         && (Accepted(h, before) ==> ApplyRead(h, before, op) == Err(error))
         && (!Accepted(h, before) ==> error.Unreadable? || ApplyRead(h, before, op) == Err(error))
  }

  /** `_validate_execution_from_entries`. */
  method ValidateFrom(h: Host, entries: Log, claim: Claim, permitted: set<Status>)
    returns (r: Result<Permit, ApprovalError>)
    ensures r == Gate(h, entries, claim, permitted)
  {
    var command := h.normalize(claim.command);
    if command.None? {
      return Err(BadCommand);
    }
    var policy := h.classify(command.value);
    if policy.None? {
      return Err(BadCommand);
    }
    var explicit := ExplicitRun(entries, command.value, claim);
    if explicit.Err? {
      return Err(explicit.error);
    }
    if explicit.value.Some? {
      return GateChecks(h, explicit.value.value, command.value, claim, permitted);
    }
    if !policy.value.approvalRequired {
      var p := policy.value;
      return Ok(Permit(command.value, p.action, p.risk, p.approvalRequired, p.confirmationRequired,
                       "", "", "", 0, map[], ""));
    }
    var resolved := ResolvePendingApproval(entries, command.value, claim.runId, permitted);
    if resolved.Err? {
      return Err(resolved.error);
    }
    r := GateChecks(h, resolved.value, command.value, claim, permitted);
  }

  class ApprovalFile {
    const h: Host
    var entries: Log

    constructor (h: Host)
      ensures this.h == h && entries == []
    {
      this.h := h;
      entries := [];
    }

    /** `read_entries`: the stored entries, once validated. */
    method ReadEntries() returns (r: Result<Log, ApprovalError>)
      ensures r.Ok? <==> Accepted(h, entries)
      ensures r.Ok? ==> r.value == entries
      ensures r.Err? ==> r.error.Unreadable?
    {
      var valid := ValidateEntries(h, entries);
      r := if valid.Ok? then Ok(entries) else Err(valid.error);
    }

    /** `_append_entry_locked`: link, hash, check the schema, write. */
    method AppendLocked(body: Body) returns (r: Result<Entry, ApprovalError>)
      modifies this
      ensures r.Ok? ==> entries == old(entries) + [r.value] && Append(h, old(entries), body) == Ok(entries)
      ensures r.Err? ==> entries == old(entries) && Append(h, old(entries), body) == Err(r.error)
    {
      var prevHash := HeadHash(entries);
      var linked := body.(prevHash := prevHash);
      var entry := Entry(linked, EntryHash(h, linked, prevHash));
      if !ValidSchema(entry.body) {
        return Err(BadEntry);
      }
      entries := entries + [entry];
      r := Ok(entry);
    }

    method AppendTransition(run: Log, status: Status, approver: string, note: Note, verification: Json)
      returns (r: Result<Entry, ApprovalError>)
      modifies this
      ensures r.Ok? ==> entries == old(entries) + [r.value]
                        && Transition(h, old(entries), run, status, approver, note, verification) == Ok(entries)
      ensures r.Err? ==> entries == old(entries)
                         && Transition(h, old(entries), run, status, approver, note, verification) == Err(r.error)
    {
      var request := FirstRequested(run);
      if request.None? {
        return Err(RunWithoutRequest);
      }
      r := AppendLocked(TransitionBody(run, request.value, status, approver, note, verification));
    }

    /** `create_request_entry` followed by `append_entry`. */
    method RequestRun(q: RunRequest) returns (r: Result<Entry, ApprovalError>)
      modifies this
      ensures Performs(h, old(entries), Request(q), entries, r)
    {
      var body := RequestBody(h, q);
      if body.Err? {
        return Err(body.error);
      }
      var read := ReadEntries();
      if read.Err? {
        return Err(read.error);
      }
      r := AppendLocked(body.value);
    }

    /** `approve_run`. */
    method ApproveRun(id: string, approver: string, note: Note) returns (r: Result<Entry, ApprovalError>)
      modifies this
      ensures Performs(h, old(entries), Approve(id, approver, note), entries, r)
    {
      var read := ReadEntries();
      if read.Err? {
        return Err(read.error);
      }
      var run := RunEntries(read.value, id);
      if run == [] {
        return Err(UnknownRun);
      }
      if LatestStatus(run) != Requested {
        return Err(WrongState(LatestStatus(run)));
      }
      r := AppendTransition(run, Approved, approver, note, JNull);
    }

    /** `reject_run`. */
    method RejectRun(id: string, reason: string, rejectedBy: string, timestamp: string)
      returns (r: Result<Entry, ApprovalError>)
      modifies this
      ensures Performs(h, old(entries), Reject(id, reason, rejectedBy, timestamp), entries, r)
    {
      var read := ReadEntries();
      if read.Err? {
        return Err(read.error);
      }
      var run := RunEntries(read.value, id);
      if run == [] {
        return Err(UnknownRun);
      }
      if LatestStatus(run) !in {Requested, Approved} {
        return Err(WrongState(LatestStatus(run)));
      }
      r := AppendTransition(run, Rejected, "", RejectionNote(reason, rejectedBy, timestamp), JNull);
    }

    /** `log_execution_state`. */
    method LogExecutionState(id: string, status: Status, note: Note) returns (r: Result<Entry, ApprovalError>)
      modifies this
      ensures Performs(h, old(entries), LogExecution(id, status, note), entries, r)
    {
      if status != Executed {
        return Err(UnsupportedStatus);
      }
      var read := ReadEntries();
      if read.Err? {
        return Err(read.error);
      }
      var run := RunEntries(read.value, id);
      if run == [] {
        return Err(UnknownRun);
      }
      if LatestStatus(run) != Approved {
        return Err(WrongState(LatestStatus(run)));
      }
      r := AppendTransition(run, Executed, "", note, JNull);
    }

    /** `validate_execution`: reads, never writes. */
    method ValidateExecution(claim: Claim) returns (r: Result<Permit, ApprovalError>)
      ensures Accepted(h, entries) ==> r == Gate(h, entries, claim, {Approved})
      ensures !Accepted(h, entries) ==> r.Err? && r.error.Unreadable?
    {
      var read := ReadEntries();
      if read.Err? {
        return Err(read.error);
      }
      r := ValidateFrom(h, read.value, claim, {Approved});
    }

    /** `finalize_execution`. */
    method FinalizeExecution(claim: Claim, output: Output, reason: string, timestamp: string)
      returns (r: Result<Entry, ApprovalError>)
      modifies this
      ensures Performs(h, old(entries), Finalize(claim, output, reason, timestamp), entries, r)
    {
      var read := ReadEntries();
      if read.Err? {
        return Err(read.error);
      }
      var permit := ValidateFrom(h, read.value, claim, {Executed});
      if permit.Err? {
        return Err(permit.error);
      }
      var run := RunEntries(read.value, permit.value.runId);
      if run == [] {
        return Err(UnknownRun);
      }
      if LatestStatus(run) != Executed {
        return Err(WrongState(LatestStatus(run)));
      }
      if VerificationPassed(output, permit.value.expectedRecords) {
        r := AppendTransition(run, Completed, "", Note("", timestamp), JObject(output.report));
      } else {
        r := AppendTransition(run, Failed, "", Note(reason, timestamp), JObject(output.report));
      }
    }
  }
}
