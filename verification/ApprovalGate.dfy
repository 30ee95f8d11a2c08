/** The execution gate: when `validate_execution` lets a command through
    (scripts/approval_pipeline.py). */
module ApprovalGate {
  import opened Common
  import opened CommandRisk
  import opened ApprovalLog
  import opened ApprovalHistory

  // ---------------------------------------------------------------- one request per run

  function CountRequested(run: Log): nat {
    if run == [] then 0
    else CountRequested(run[..|run| - 1]) + if run[|run| - 1].body.status == Requested then 1 else 0
  }

  lemma {:induction false} LegalPathHasOneRequest(run: Log)
    requires LegalPath(run)
    ensures CountRequested(run) <= 1
    ensures run != [] ==> CountRequested(run) == 1
  {
    if |run| == 1 {
      assert CountRequested(run[..0]) == 0;
    } else if |run| > 1 {
      assert Edge(run[|run| - 2].body.status, run[|run| - 1].body.status);
      LegalPathHasOneRequest(run[..|run| - 1]);
    }
  }

  ghost predicate OneRequestPerRun(log: Log) {
    forall id :: CountRequested(RunEntries(log, id)) <= 1
  }

  lemma GoodHasOneRequestPerRun(h: Host, log: Log)
    requires Good(h, log)
    ensures OneRequestPerRun(log)
  {
    forall id ensures CountRequested(RunEntries(log, id)) <= 1 {
      assert RunOk(RunEntries(log, id));
      LegalPathHasOneRequest(RunEntries(log, id));
    }
  }

  lemma CountSnoc(log: Log, e: Entry, id: string)
    ensures CountRequested(RunEntries(log + [e], id))
            == CountRequested(RunEntries(log, id))
               + if e.body.status == Requested && e.body.runId == id then 1 else 0
  {
    RunEntriesSnoc(log, e, id);
    var run := RunEntries(log, id);
    assert (run + [e])[..|run|] == run;
  }

  predicate Distinct(ids: seq<string>) {
    forall j, k | 0 <= j < k < |ids| :: ids[j] != ids[k]
  }

  predicate Matches(e: Entry, command: string) {
    e.body.status == Requested && e.body.command == command
  }

  /** Without a run id, the collected ids are those of the matching requests. */
  lemma {:induction false} MatchingIdsExact(log: Log, command: string, runId: Option<string>)
    requires !Truthy(runId)
    ensures forall id :: id in MatchingRunIds(log, command, runId)
                         <==> exists e :: e in log && Matches(e, command) && e.body.runId == id
  {
    if log != [] {
      var init, e := log[..|log| - 1], log[|log| - 1];
      assert log == init + [e];
      MatchingIdsExact(init, command, runId);
    }
  }

  lemma {:induction false} RequestIsCounted(log: Log, e: Entry)
    requires e in log && e.body.status == Requested
    ensures CountRequested(RunEntries(log, e.body.runId)) >= 1
  {
    var init, last := log[..|log| - 1], log[|log| - 1];
    assert log == init + [last];
    CountSnoc(init, last, e.body.runId);
    if last != e {
      RequestIsCounted(init, e);
    }
  }

  /** With one request per run, each id is collected once. */
  lemma {:induction false} MatchingIdsDistinct(log: Log, command: string, runId: Option<string>)
    requires !Truthy(runId) && OneRequestPerRun(log)
    ensures Distinct(MatchingRunIds(log, command, runId))
  {
    if log != [] {
      var init, e := log[..|log| - 1], log[|log| - 1];
      assert log == init + [e];
      forall id ensures CountRequested(RunEntries(init, id)) <= 1 {
        CountSnoc(init, e, id);
      }
      MatchingIdsDistinct(init, command, runId);
      if Matches(e, command) {
        MatchingIdsExact(init, command, runId);
        CountSnoc(init, e, e.body.runId);
        forall d | d in init && Matches(d, command) ensures d.body.runId != e.body.runId {
          RequestIsCounted(init, d);
        }
        var ids := MatchingRunIds(init, command, runId);
        assert e.body.runId !in ids;
        assert forall k | 0 <= k < |ids| :: ids[k] in ids;
      }
    }
  }

  // ---------------------------------------------------------------- the runs in a permitted state

  predicate InState(log: Log, id: string, permitted: set<Status>) {
    var run := RunEntries(log, id);
    run != [] && LatestStatus(run) in permitted
  }

  /** The runs of `command` whose latest entry has a permitted status. */
  function RunsOf(log: Log, command: string, permitted: set<Status>): set<string> {
    set e | e in log && Matches(e, command) && InState(log, e.body.runId, permitted) :: e.body.runId
  }

  function IdsInState(log: Log, ids: seq<string>, permitted: set<Status>): (r: seq<string>)
    ensures forall id :: id in r <==> id in ids && InState(log, id, permitted)
    ensures Distinct(ids) ==> Distinct(r)
  {
    if ids == [] then []
    else
      var last := ids[|ids| - 1];
      IdsInState(log, ids[..|ids| - 1], permitted) + if InState(log, last, permitted) then [last] else []
  }

  lemma {:induction false} RunsAreThoseOfTheIds(log: Log, ids: seq<string>, permitted: set<Status>)
    ensures var kept := IdsInState(log, ids, permitted);
            && |RunsInState(log, ids, permitted)| == |kept|
            && forall k | 0 <= k < |kept| :: RunsInState(log, ids, permitted)[k] == RunEntries(log, kept[k])
  {
    if ids != [] {
      RunsAreThoseOfTheIds(log, ids[..|ids| - 1], permitted);
    }
  }

  lemma DistinctSingleton(ids: seq<string>, s: set<string>)
    requires Distinct(ids) && forall id :: id in ids <==> id in s
    ensures |ids| == 1 <==> exists id :: s == {id}
    ensures |ids| == 1 ==> s == {ids[0]}
    ensures ids == [] <==> s == {}
  {
    if |ids| == 1 {
      assert s == {ids[0]};
    }
    if exists id :: s == {id} {
      var id :| s == {id};
      assert id in s;
      forall k | 0 <= k < |ids| ensures ids[k] == id {
        assert ids[k] in ids && ids[k] in s;
      }
      assert id in ids;
      assert ids[|ids| - 1] == ids[0];
    }
    if ids != [] {
      assert ids[0] in ids;
    }
  }

  lemma KeptIdsAreRunsOf(log: Log, command: string, ids: seq<string>, permitted: set<Status>)
    requires forall id :: id in ids <==> exists e :: e in log && Matches(e, command) && e.body.runId == id
    ensures forall id :: id in IdsInState(log, ids, permitted) <==> id in RunsOf(log, command, permitted)
  {
  }

  /** On a good log, the ids the lookup keeps are the runs of the command in a permitted state, each
      once. */
  lemma KeptIds(h: Host, log: Log, command: string, permitted: set<Status>) returns (kept: seq<string>)
    requires Good(h, log)
    ensures var runs := RunsInState(log, MatchingRunIds(log, command, None), permitted);
            |runs| == |kept| && forall k | 0 <= k < |kept| :: runs[k] == RunEntries(log, kept[k])
    ensures |kept| == 1 <==> exists id :: RunsOf(log, command, permitted) == {id}
    ensures |kept| == 1 ==> RunsOf(log, command, permitted) == {kept[0]}
  {
    var ids := MatchingRunIds(log, command, None);
    GoodHasOneRequestPerRun(h, log);
    MatchingIdsExact(log, command, None);
    MatchingIdsDistinct(log, command, None);
    kept := IdsInState(log, ids, permitted);
    RunsAreThoseOfTheIds(log, ids, permitted);
    KeptIdsAreRunsOf(log, command, ids, permitted);
    DistinctSingleton(kept, RunsOf(log, command, permitted));
  }

  /** On a good log, an unqualified lookup finds a run exactly when one run of the command is in a
      permitted state, and then finds that run. */
  lemma ResolvedIffOneRun(h: Host, log: Log, command: string, permitted: set<Status>)
    requires Good(h, log)
    ensures Resolved(log, command, None, permitted).Ok? <==> exists id :: RunsOf(log, command, permitted) == {id}
    ensures forall id | RunsOf(log, command, permitted) == {id} ::
              Resolved(log, command, None, permitted) == Ok(RunEntries(log, id))
  {
    var kept := KeptIds(h, log, command, permitted);
    forall id | RunsOf(log, command, permitted) == {id}
      ensures Resolved(log, command, None, permitted) == Ok(RunEntries(log, id))
    {
      assert kept[0] in {id};
    }
  }

  // ---------------------------------------------------------------- the gate on good logs

  /** The checks that follow never fail on a run of a good log, except for confirmation. */
  lemma GateChecksOnGoodRun(h: Host, log: Log, id: string, command: string, claim: Claim, permitted: set<Status>)
    requires Good(h, log) && InState(log, id, permitted)
    requires RunEntries(log, id)[0].body.command == command
    requires !Truthy(claim.executionHash)
    ensures var request := RunEntries(log, id)[0].body;
            && Known(request.risk)
            && (GateChecks(h, RunEntries(log, id), command, claim, permitted).Ok?
                <==> (RequiresConfirmation(request.risk) ==> claim.confirm))
    ensures var r := GateChecks(h, RunEntries(log, id), command, claim, permitted);
            r.Ok? ==> r.value.runId == id
  {
    var run := RunEntries(log, id);
    assert RunOk(run);
    LatestRequestIsFirst(run);
    RunIds(log, id, 0);
    var i :| 0 <= i < |log| && log[i] == run[0];
    AcceptedAt(h, log, i);
  }

  lemma RunCommandIsRequestCommand(h: Host, log: Log, command: string, permitted: set<Status>, id: string)
    requires Good(h, log) && id in RunsOf(log, command, permitted)
    ensures InState(log, id, permitted) && RunEntries(log, id)[0].body.command == command
    ensures exists i | 0 <= i < |log| :: log[i] == RunEntries(log, id)[0]
  {
    var e :| e in log && Matches(e, command) && InState(log, e.body.runId, permitted) && e.body.runId == id;
    var run := RunEntries(log, id);
    assert RunOk(run);
    RunIds(log, id, 0);
    EntryInItsRun(log, e);
    var k :| 0 <= k < |run| && run[k] == e;
    assert Agrees(run[k].body, run[0].body);
  }

  lemma {:induction false} EntryInItsRun(log: Log, e: Entry)
    requires e in log
    ensures e in RunEntries(log, e.body.runId)
  {
    if e != log[|log| - 1] {
      EntryInItsRun(log[..|log| - 1], e);
    }
  }

  /** Without a run id, or with an empty one, and without a hash, a command that needs approval goes to
      the unqualified lookup. */
  lemma UnqualifiedGate(h: Host, log: Log, claim: Claim, command: string)
    requires !Truthy(claim.runId) && !Truthy(claim.executionHash)
    requires h.normalize(claim.command) == Some(command)
    requires h.classify(command).Some? && h.classify(command).value.approvalRequired
    ensures Gate(h, log, claim, {Approved})
            == match Resolved(log, command, claim.runId, {Approved})
               case Err(e) => Err(e)
               case Ok(run) => GateChecks(h, run, command, claim, {Approved})
  {
  }

  /** The run of `command` in a permitted state that was requested last. */
  function LatestOf(log: Log, command: string, permitted: set<Status>): Option<string> {
    var kept := IdsInState(log, MatchingRunIds(log, command, None), permitted);
    if kept == [] then None else Some(kept[|kept| - 1])
  }

  /** An empty run id selects nothing. */
  lemma {:induction false} EmptyIdMatchesAll(log: Log, command: string, runId: Option<string>)
    requires !Truthy(runId)
    ensures MatchingRunIds(log, command, runId) == MatchingRunIds(log, command, None)
  {
    if log != [] {
      EmptyIdMatchesAll(log[..|log| - 1], command, runId);
    }
  }

  lemma LastKept(log: Log, command: string, runId: Option<string>, permitted: set<Status>) returns (kept: seq<string>)
    requires !Truthy(runId)
    ensures var runs := RunsInState(log, MatchingRunIds(log, command, runId), permitted);
            |runs| == |kept| && forall k | 0 <= k < |kept| :: runs[k] == RunEntries(log, kept[k])
    ensures forall id :: id in kept <==> id in RunsOf(log, command, permitted)
    ensures LatestOf(log, command, permitted) == if kept == [] then None else Some(kept[|kept| - 1])
  {
    var ids := MatchingRunIds(log, command, runId);
    kept := IdsInState(log, ids, permitted);
    MatchingIdsExact(log, command, runId);
    RunsAreThoseOfTheIds(log, ids, permitted);
    KeptIdsAreRunsOf(log, command, ids, permitted);
    EmptyIdMatchesAll(log, command, runId);
  }

  /** With an empty run id several runs in a permitted state are no error: the last one is taken. */
  lemma ResolvedWithEmptyId(log: Log, command: string, runId: Option<string>, permitted: set<Status>)
    requires runId.Some? && !Truthy(runId)
    ensures Resolved(log, command, runId, permitted).Ok? <==> LatestOf(log, command, permitted).Some?
    ensures LatestOf(log, command, permitted).Some? <==> RunsOf(log, command, permitted) != {}
    ensures LatestOf(log, command, permitted).Some? ==>
              var id := LatestOf(log, command, permitted).value;
              && id in RunsOf(log, command, permitted)
              && Resolved(log, command, runId, permitted) == Ok(RunEntries(log, id))
  {
    var kept := LastKept(log, command, runId, permitted);
    if kept != [] {
      assert kept[|kept| - 1] in kept;
    }
  }

  /** The run the lookup settles on: without a run id the only approved run of the command, with an empty
      one the approved run that was requested last. */
  ghost predicate Settles(log: Log, command: string, runId: Option<string>, id: string) {
    if runId.None? then RunsOf(log, command, {Approved}) == {id}
    else LatestOf(log, command, {Approved}) == Some(id)
  }

  lemma ResolvedIffSettled(h: Host, log: Log, command: string, runId: Option<string>)
    requires Good(h, log) && !Truthy(runId)
    ensures Resolved(log, command, runId, {Approved}).Ok? <==> exists id :: Settles(log, command, runId, id)
    ensures forall id | Settles(log, command, runId, id) ::
              && Resolved(log, command, runId, {Approved}) == Ok(RunEntries(log, id))
              && id in RunsOf(log, command, {Approved})
  {
    if runId.None? {
      ResolvedIffOneRun(h, log, command, {Approved});
      forall id | Settles(log, command, runId, id) ensures id in RunsOf(log, command, {Approved}) {
        assert id in {id};
      }
      if Resolved(log, command, None, {Approved}).Ok? {
        var id :| RunsOf(log, command, {Approved}) == {id};
        assert Settles(log, command, runId, id);
      }
    } else {
      ResolvedWithEmptyId(log, command, runId, {Approved});
      assert LatestOf(log, command, {Approved}).Some? ==>
          Settles(log, command, runId, LatestOf(log, command, {Approved}).value);
    }
  }

  lemma SettledRunOpensGate(h: Host, log: Log, claim: Claim, command: string, id: string)
    requires Good(h, log) && id in RunsOf(log, command, {Approved})
    requires !Truthy(claim.executionHash)
    ensures RunEntries(log, id) != []
    ensures var request := RunEntries(log, id)[0].body;
            && Known(request.risk)
            && (GateChecks(h, RunEntries(log, id), command, claim, {Approved}).Ok?
                <==> (RequiresConfirmation(request.risk) ==> claim.confirm))
    ensures var r := GateChecks(h, RunEntries(log, id), command, claim, {Approved});
            r.Ok? ==> r.value.runId == id
  {
    RunCommandIsRequestCommand(h, log, command, {Approved}, id);
    GateChecksOnGoodRun(h, log, id, command, claim, {Approved});
  }

  /** For a command that needs approval, presented without a hash and with no run id or an empty one, the
      gate opens exactly when the lookup settles on a run and, if that run's recorded risk asks for it,
      the caller confirms. Without a run id that takes exactly one approved run of the command; with an
      empty one several will do. The permit names the run. */
  lemma GateOpensIffRunSettled(h: Host, log: Log, claim: Claim, command: string)
    requires Good(h, log)
    requires !Truthy(claim.runId) && !Truthy(claim.executionHash)
    requires h.normalize(claim.command) == Some(command)
    requires h.classify(command).Some? && h.classify(command).value.approvalRequired
    ensures var gate := Gate(h, log, claim, {Approved});
            && (gate.Ok? ==> Settles(log, command, claim.runId, gate.value.runId))
            && forall id | Settles(log, command, claim.runId, id) ::
                 && InState(log, id, {Approved}) && Known(RunEntries(log, id)[0].body.risk)
                 && (gate.Ok? <==> (RequiresConfirmation(RunEntries(log, id)[0].body.risk) ==> claim.confirm))
    ensures claim.runId.Some? ==>
              ((exists id :: Settles(log, command, claim.runId, id)) <==> RunsOf(log, command, {Approved}) != {})
  {
    UnqualifiedGate(h, log, claim, command);
    ResolvedIffSettled(h, log, command, claim.runId);
    var gate := Gate(h, log, claim, {Approved});
    forall id | Settles(log, command, claim.runId, id)
      ensures InState(log, id, {Approved}) && Known(RunEntries(log, id)[0].body.risk)
      ensures gate.Ok? <==> (RequiresConfirmation(RunEntries(log, id)[0].body.risk) ==> claim.confirm)
      ensures gate.Ok? ==> gate.value.runId == id
    {
      RunCommandIsRequestCommand(h, log, command, {Approved}, id);
      SettledRunOpensGate(h, log, claim, command, id);
    }
    if claim.runId.Some? {
      ResolvedWithEmptyId(log, command, claim.runId, {Approved});
    }
  }

  /** Whatever run id or hash is presented, nothing classified L3 or L4 passes unconfirmed, and the
      permit of a command that needs approval names a run of that command that stands approved. */
  lemma GateIsSafe(h: Host, log: Log, claim: Claim)
    requires Good(h, log) && RisksRecorded(h, log) && Gate(h, log, claim, {Approved}).Ok?
    ensures var command := h.normalize(claim.command);
            command.Some? && h.classify(command.value).Some?
    ensures var policy := h.classify(h.normalize(claim.command).value).value;
            var permit := Gate(h, log, claim, {Approved}).value;
            && (policy.confirmationRequired ==> claim.confirm)
            && (policy.approvalRequired ==>
                  (InState(log, permit.runId, {Approved})
                   && RunEntries(log, permit.runId)[0].body.command == h.normalize(claim.command).value
                   && PermitMatches(permit, RunEntries(log, permit.runId))))
  {
    var command := h.normalize(claim.command).value;
    var explicit := ExplicitRun(log, command, claim);
    if explicit.value.Some? {
      ExplicitRunIsARun(log, command, claim);
      var id :| explicit.value == Some(RunEntries(log, id));
      PermitIsForTheRun(h, log, id, command, claim);
    } else if h.classify(command).value.approvalRequired {
      var resolved := Resolved(log, command, claim.runId, {Approved});
      ResolvedIsARun(log, command, claim.runId, {Approved});
      var id :| resolved == Ok(RunEntries(log, id));
      PermitIsForTheRun(h, log, id, command, claim);
    }
  }

  /** The permit repeats what was requested and who approved it. */
  predicate PermitMatches(p: Permit, run: Log)
    requires run != []
  {
    var request := run[0].body;
    && p.runId == request.runId
    && p.action == request.action
    && p.callId == request.callId
    && p.risk == request.risk
    && p.command == request.command
    && p.executionHash == request.executionHash
    && p.expectedRecords == request.expectedRecords
    && p.queryFilter == request.queryFilter
    && p.approvedBy == run[|run| - 1].body.approvedBy
  }

  lemma PermitIsForTheRun(h: Host, log: Log, id: string, command: string, claim: Claim)
    requires Good(h, log) && RisksRecorded(h, log)
    requires GateChecks(h, RunEntries(log, id), command, claim, {Approved}).Ok?
    ensures var permit := GateChecks(h, RunEntries(log, id), command, claim, {Approved}).value;
            && permit.runId == id
            && InState(log, id, {Approved})
            && RunEntries(log, id)[0].body.command == command
            && PermitMatches(permit, RunEntries(log, id))
            && (h.classify(command).Some? && h.classify(command).value.confirmationRequired
                ==> claim.confirm)
  {
    var run := RunEntries(log, id);
    assert RunOk(run);
    LatestRequestIsFirst(run);
    RunIds(log, id, 0);
    var i :| 0 <= i < |log| && log[i] == run[0];
    assert RiskNotLowered(h, log[i].body);
    ApproverOfApproved(run);
  }

  /** While a run stands approved, its effective approver is the one its approval records. */
  lemma ApproverOfApproved(run: Log)
    requires RunOk(run) && run != [] && LatestStatus(run) == Approved
    ensures EffectiveApprover(run) == run[|run| - 1].body.approvedBy
  {
    ProgressGrows(run, 0, |run| - 1);
    assert |run| <= 2;
    assert EffectiveApprover(run[..|run| - 1]) == "" by {
      NoApprover(run[..|run| - 1]);
    }
  }

  lemma ExplicitRunIsARun(log: Log, command: string, claim: Claim)
    requires ExplicitRun(log, command, claim).Ok? && ExplicitRun(log, command, claim).value.Some?
    ensures exists id :: ExplicitRun(log, command, claim).value == Some(RunEntries(log, id))
  {
    if Truthy(claim.runId) {
      assert ExplicitRun(log, command, claim).value == Some(RunEntries(log, claim.runId.value));
    } else {
      var e := RequestByHash(log, command, claim.executionHash.value).value;
      assert ExplicitRun(log, command, claim).value == Some(RunEntries(log, e.body.runId));
    }
  }

  lemma ResolvedIsARun(log: Log, command: string, runId: Option<string>, permitted: set<Status>)
    requires Resolved(log, command, runId, permitted).Ok?
    ensures exists id :: Resolved(log, command, runId, permitted) == Ok(RunEntries(log, id))
  {
    var ids := MatchingRunIds(log, command, runId);
    RunsAreThoseOfTheIds(log, ids, permitted);
    var kept := IdsInState(log, ids, permitted);
    assert Resolved(log, command, runId, permitted) == Ok(RunEntries(log, kept[|kept| - 1]));
  }

  /** The normal form of the command classifies to a level that needs approval. */
  predicate NeedsApproval(sh: Shell, command: string) {
    var normalized := Normalize(sh, command);
    normalized.Some? && Classify(sh, normalized.value).Some? && Classify(sh, normalized.value).value.approvalRequired
  }

  /** Adding arguments to a command that needs approval does not get it past the gate: whatever run
      id, hash or confirmation accompanies the longer command, a permit for it names a run of that
      longer command that stands approved. */
  lemma ArgumentsDoNotAvoidApproval(sha256: string -> string, canonical: Body -> string, sh: Shell,
                                    log: Log, command: string, claim: Claim)
    requires RoundTrips(sh)
    requires CommandTokens(sh, command).Some? && |CommandTokens(sh, command).value| >= 2
    requires CommandTokens(sh, claim.command).Some?
    requires CommandTokens(sh, command).value <= CommandTokens(sh, claim.command).value
    requires NeedsApproval(sh, command)
    requires var h := HostOf(sha256, canonical, sh);
             Good(h, log) && RisksRecorded(h, log) && Gate(h, log, claim, {Approved}).Ok?
    ensures var permit := Gate(HostOf(sha256, canonical, sh), log, claim, {Approved}).value;
            && InState(log, permit.runId, {Approved})
            && Some(RunEntries(log, permit.runId)[0].body.command) == Normalize(sh, claim.command)
  {
    NormalizedPrefix(sh, command, claim.command);
    LongerCommandIsNoSafer(sh, Normalize(sh, command).value, Normalize(sh, claim.command).value);
    GateIsSafe(HostOf(sha256, canonical, sh), log, claim);
  }

  /** Whatever its arguments, a command that starts a script of the repository's own registry passes the
      gate only confirmed and with an approved run of its own. */
  lemma RegisteredScriptsAreGated(sha256: string -> string, canonical: Body -> string,
                                  split: string -> Option<seq<string>>, join: seq<string> -> string,
                                  resolve: string -> Option<string>, log: Log, claim: Claim)
    requires var sh := RepositoryShell(split, join, resolve);
             RoundTrips(sh) && NormalizesOnce(sh) && RunsRegisteredScript(sh, claim.command)
    requires var h := HostOf(sha256, canonical, RepositoryShell(split, join, resolve));
             Good(h, log) && RisksRecorded(h, log) && Gate(h, log, claim, {Approved}).Ok?
    ensures claim.confirm
    ensures var sh := RepositoryShell(split, join, resolve);
            var permit := Gate(HostOf(sha256, canonical, sh), log, claim, {Approved}).value;
            && InState(log, permit.runId, {Approved})
            && Some(RunEntries(log, permit.runId)[0].body.command) == Normalize(sh, claim.command)
  {
    var sh := RepositoryShell(split, join, resolve);
    RegisteredScriptsNeedConfirmation(sh, claim.command);
    GateIsSafe(HostOf(sha256, canonical, sh), log, claim);
  }
}
