/** Executions under interleaving: the gate reads the log without its lock, and possibly a stale part of
    it, while everything that writes holds the lock (scripts/approval_pipeline.py). */
module ApprovalRaces {
  import opened Common
  import opened ApprovalLog
  import opened ApprovalHistory
  import opened ApprovalGate

  /** What an executor presented to the gate, and what the gate answered. */
  datatype Grant = Grant(claim: Claim, permit: Permit)

  /** An execution begun on a grant; `at` is the length of the log just before its entry. */
  datatype Start = Start(pid: nat, grant: Grant, at: nat)

  /** The shared log, what each executor was granted, and the executions started. */
  datatype System = System(log: Log, grants: map<nat, Grant>, started: seq<Start>)

  datatype Event =
    | Locked(op: Op)                                 // any locked operation, by anyone
    | Check(pid: nat, upTo: nat, claim: Claim)       // validate_execution on a possibly stale prefix
    | Begin(pid: nat, note: Note)                    // log_execution_state, then run the command

  function Step(h: Host, s: System, ev: Event): System {
    match ev
    case Locked(op) => s.(log := After(h, s.log, op))
    case Check(pid, upTo, claim) =>
      var seen := if upTo <= |s.log| then s.log[..upTo] else s.log;
      (match if Accepted(h, seen) then Gate(h, seen, claim, {Approved}) else Err(BadEntry)
       case Err(_) => s
       case Ok(permit) => s.(grants := s.grants[pid := Grant(claim, permit)]))
    case Begin(pid, note) =>
      if pid !in s.grants then s
      else
        var op := LogExecution(s.grants[pid].permit.runId, Executed, note);
        if Accepted(h, s.log) && ApplyRead(h, s.log, op).Ok?
        then s.(log := After(h, s.log, op), started := s.started + [Start(pid, s.grants[pid], |s.log|)])
        else s
  }

  function Interleave(h: Host, events: seq<Event>): System {
    if events == [] then System([], map[], [])
    else Step(h, Interleave(h, events[..|events| - 1]), events[|events| - 1])
  }

  predicate FreshEvents(h: Host, events: seq<Event>) {
    events == [] ||
    (FreshEvents(h, events[..|events| - 1])
     && (events[|events| - 1].Locked? ==>
           FreshRequest(Interleave(h, events[..|events| - 1]).log, events[|events| - 1].op)))
  }

  /** The run has been approved and its execution recorded. */
  predicate ApprovedThenExecuted(run: Log) {
    |run| >= 3 && run[1].body.status == Approved && run[2].body.status == Executed
  }

  /** The gate answered so on the first n entries of the log. */
  ghost predicate GrantedOn(h: Host, log: Log, g: Grant, n: nat) {
    n <= |log| && Gate(h, log[..n], g.claim, {Approved}) == Ok(g.permit)
  }

  ghost predicate Granted(h: Host, log: Log, g: Grant) {
    exists n :: GrantedOn(h, log, g, n)
  }

  /** The execution began on a grant read from the log as it was then or before, while the run stood
      approved, and its entry is in the log. */
  ghost predicate StartOk(h: Host, log: Log, st: Start) {
    && st.at <= |log|
    && Granted(h, log[..st.at], st.grant)
    && InState(log[..st.at], st.grant.permit.runId, {Approved})
    && ApprovedThenExecuted(RunEntries(log, st.grant.permit.runId))
  }

  ghost predicate StartsOk(h: Host, s: System) {
    && (forall k | 0 <= k < |s.started| :: StartOk(h, s.log, s.started[k]))
    && (forall j, k | 0 <= j < k < |s.started| ::
          s.started[j].grant.permit.runId != s.started[k].grant.permit.runId)
  }

  ghost predicate SystemInv(h: Host, s: System) {
    && Good(h, s.log)
    && (forall pid | pid in s.grants :: Granted(h, s.log, s.grants[pid]))
    && StartsOk(h, s)
  }

  // ---------------------------------------------------------------- growing logs

  /** Operations only append. */
  lemma AfterExtends(h: Host, log: Log, op: Op)
    ensures log <= After(h, log, op) && |After(h, log, op)| <= |log| + 1
  {
  }

  lemma {:induction false} ExtensionExtendsRuns(log: Log, grown: Log, id: string)
    requires log <= grown && |grown| <= |log| + 1
    ensures RunEntries(log, id) <= RunEntries(grown, id)
  {
    if |grown| == |log| + 1 {
      assert grown == log + [grown[|log|]];
      RunEntriesSnoc(log, grown[|log|], id);
    } else {
      assert grown == log;
    }
  }

  lemma AfterExtendsRuns(h: Host, log: Log, op: Op, id: string)
    ensures RunEntries(log, id) <= RunEntries(After(h, log, op), id)
  {
    AfterExtends(h, log, op);
    ExtensionExtendsRuns(log, After(h, log, op), id);
  }

  /** Recording an execution turns a run that stands approved into an executed one. */
  lemma ExecutionFollowsApproval(h: Host, log: Log, id: string, note: Note)
    requires Good(h, log)
    requires ApplyRead(h, log, LogExecution(id, Executed, note)).Ok?
    ensures !ApprovedThenExecuted(RunEntries(log, id))
    ensures ApprovedThenExecuted(RunEntries(After(h, log, LogExecution(id, Executed, note)), id))
  {
    var run := RunEntries(log, id);
    assert RunOk(run);
    ProgressGrows(run, 0, |run| - 1);
    assert |run| == 2 by {
      assert Progress(run[|run| - 1].body.status) == 1;
      assert run[0].body.status == Requested;
    }
    LatestRequestIsFirst(run);
    RunIds(log, id, 0);
    var body := TransitionBody(run, run[0], Executed, "", note, JNull);
    RunEntriesSnoc(log, Chained(h, log, body), id);
  }

  lemma {:induction false} PrefixOfRuns(log: Log, n: nat, id: string)
    requires n <= |log|
    ensures RunEntries(log[..n], id) <= RunEntries(log, id)
  {
    if n == |log| {
      assert log[..n] == log;
    } else {
      var init := log[..|log| - 1];
      assert init[..n] == log[..n];
      PrefixOfRuns(init, n, id);
    }
  }

  /** What was read unlocked was a good log too. */
  lemma GoodPrefix(h: Host, log: Log, n: nat)
    requires Good(h, log) && n <= |log|
    ensures Good(h, log[..n])
  {
    AcceptedPrefix(h, log, n);
    forall id ensures RunOk(RunEntries(log[..n], id)) {
      PrefixOfRuns(log, n, id);
      assert RunOk(RunEntries(log, id));
    }
  }

  lemma GrantStays(h: Host, log: Log, grown: Log, g: Grant)
    requires log <= grown && Granted(h, log, g)
    ensures Granted(h, grown, g)
  {
    var n: nat :| GrantedOn(h, log, g, n);
    assert grown[..n] == log[..n];
    assert GrantedOn(h, grown, g, n);
  }

  lemma StartStays(h: Host, log: Log, op: Op, st: Start)
    requires StartOk(h, log, st)
    ensures StartOk(h, After(h, log, op), st)
  {
    AfterExtends(h, log, op);
    AfterExtendsRuns(h, log, op, st.grant.permit.runId);
    assert After(h, log, op)[..st.at] == log[..st.at];
  }

  // ---------------------------------------------------------------- one step

  lemma LockedKeepsInv(h: Host, s: System, op: Op)
    requires SystemInv(h, s) && FreshRequest(s.log, op)
    ensures SystemInv(h, Step(h, s, Locked(op)))
  {
    OperationKeepsGood(h, s.log, op);
    AfterExtends(h, s.log, op);
    forall pid | pid in s.grants ensures Granted(h, After(h, s.log, op), s.grants[pid]) {
      GrantStays(h, s.log, After(h, s.log, op), s.grants[pid]);
    }
    forall k | 0 <= k < |s.started| ensures StartOk(h, After(h, s.log, op), s.started[k]) {
      StartStays(h, s.log, op, s.started[k]);
    }
  }

  lemma CheckKeepsInv(h: Host, s: System, pid: nat, upTo: nat, claim: Claim)
    requires SystemInv(h, s)
    ensures SystemInv(h, Step(h, s, Check(pid, upTo, claim)))
  {
    var n := if upTo <= |s.log| then upTo else |s.log|;
    assert s.log[..|s.log|] == s.log;
    var gate := Gate(h, s.log[..n], claim, {Approved});
    if gate.Ok? {
      assert GrantedOn(h, s.log, Grant(claim, gate.value), n);
    }
  }

  /** A new start: the run stood approved, so no earlier start was on it. */
  lemma NewStart(h: Host, s: System, pid: nat, note: Note)
    requires SystemInv(h, s) && pid in s.grants
    requires ApplyRead(h, s.log, LogExecution(s.grants[pid].permit.runId, Executed, note)).Ok?
    ensures var after := Step(h, s, Begin(pid, note));
            StartOk(h, after.log, Start(pid, s.grants[pid], |s.log|))
    ensures forall k | 0 <= k < |s.started| :: s.started[k].grant.permit.runId != s.grants[pid].permit.runId
  {
    var g := s.grants[pid];
    var op := LogExecution(g.permit.runId, Executed, note);
    var grown := After(h, s.log, op);
    AfterExtends(h, s.log, op);
    assert grown[..|s.log|] == s.log;
    ExecutionFollowsApproval(h, s.log, g.permit.runId, note);
    forall k | 0 <= k < |s.started| ensures s.started[k].grant.permit.runId != g.permit.runId {
      assert StartOk(h, s.log, s.started[k]);
    }
  }

  lemma RecordStart(h: Host, s: System, st: Start)
    requires SystemInv(h, s) && StartOk(h, s.log, st)
    requires forall k | 0 <= k < |s.started| :: s.started[k].grant.permit.runId != st.grant.permit.runId
    ensures SystemInv(h, s.(started := s.started + [st]))
  {
    var started := s.started + [st];
    assert forall k | 0 <= k < |started| :: started[k] == st || StartOk(h, s.log, started[k]);
  }

  lemma BeginKeepsInv(h: Host, s: System, pid: nat, note: Note)
    requires SystemInv(h, s)
    ensures SystemInv(h, Step(h, s, Begin(pid, note)))
  {
    if pid in s.grants {
      var op := LogExecution(s.grants[pid].permit.runId, Executed, note);
      if ApplyRead(h, s.log, op).Ok? {
        var logged := s.(log := After(h, s.log, op));
        LockedKeepsInv(h, s, op);
        assert Step(h, s, Locked(op)) == logged;
        NewStart(h, s, pid, note);
        RecordStart(h, logged, Start(pid, s.grants[pid], |s.log|));
      }
    }
  }

  lemma StepKeepsSystemInv(h: Host, s: System, ev: Event)
    requires SystemInv(h, s)
    requires ev.Locked? ==> FreshRequest(s.log, ev.op)
    ensures SystemInv(h, Step(h, s, ev))
  {
    match ev
    case Check(pid, upTo, claim) => CheckKeepsInv(h, s, pid, upTo, claim);
    case Locked(op) => LockedKeepsInv(h, s, op);
    case Begin(pid, note) => BeginKeepsInv(h, s, pid, note);
  }

  // ---------------------------------------------------------------- every interleaving

  /** Although the gate reads without the lock, and possibly a stale prefix of the log, no approved
      run is ever started twice: over any interleaving, the started runs are pairwise different, each
      was approved first, and a run's log holds at most one executed entry. */
  lemma {:induction false} EachApprovalStartsOnce(h: Host, events: seq<Event>)
    requires FreshEvents(h, events)
    ensures SystemInv(h, Interleave(h, events))
    ensures forall id, j, k | 0 <= j < k < |RunEntries(Interleave(h, events).log, id)| ::
              !(RunEntries(Interleave(h, events).log, id)[j].body.status == Executed
                && RunEntries(Interleave(h, events).log, id)[k].body.status == Executed)
  {
    if events != [] {
      EachApprovalStartsOnce(h, events[..|events| - 1]);
      StepKeepsSystemInv(h, Interleave(h, events[..|events| - 1]), events[|events| - 1]);
    }
    var log := Interleave(h, events).log;
    assert SystemInv(h, Interleave(h, events));
    forall id, j, k | 0 <= j < k < |RunEntries(log, id)|
      ensures !(RunEntries(log, id)[j].body.status == Executed && RunEntries(log, id)[k].body.status == Executed)
    {
      assert RunOk(RunEntries(log, id));
      LegalPathsAreShort(RunEntries(log, id));
    }
  }

  lemma {:induction false} RacesKeepRisks(h: Host, events: seq<Event>)
    ensures RisksRecorded(h, Interleave(h, events).log)
  {
    if events != [] {
      var s, ev := Interleave(h, events[..|events| - 1]), events[|events| - 1];
      RacesKeepRisks(h, events[..|events| - 1]);
      match ev
      case Locked(op) => OperationKeepsRisks(h, s.log, op);
      case Check(_, _, _) =>
      case Begin(pid, note) =>
        if pid in s.grants {
          OperationKeepsRisks(h, s.log, LogExecution(s.grants[pid].permit.runId, Executed, note));
        }
    }
  }

  /** A run that stands approved is its request and its approval, so it is the same whenever it does. */
  lemma ApprovedRunIsSettled(h: Host, log: Log, n: nat, id: string)
    requires Good(h, log) && n <= |log|
    requires InState(log[..n], id, {Approved}) && InState(log, id, {Approved})
    ensures RunEntries(log[..n], id) == RunEntries(log, id)
  {
    var seen, run := RunEntries(log[..n], id), RunEntries(log, id);
    PrefixOfRuns(log, n, id);
    assert RunOk(run);
    ProgressGrows(run, |seen| - 1, |run| - 1);
  }

  /** What the presented command demands was met when its execution began: it was confirmed if
      classified L3 or above, and if it needs approval, the run stood approved just then, for that
      command, and the permit repeats its request and its approver. */
  ghost predicate LawfulStart(h: Host, log: Log, st: Start) {
    var command := h.normalize(st.grant.claim.command);
    && st.at <= |log| && command.Some? && h.classify(command.value).Some?
    && (h.classify(command.value).value.confirmationRequired ==> st.grant.claim.confirm)
    && (h.classify(command.value).value.approvalRequired ==>
          var run := RunEntries(log[..st.at], st.grant.permit.runId);
          && run != [] && LatestStatus(run) == Approved
          && run[0].body.command == command.value
          && PermitMatches(st.grant.permit, run))
  }

  lemma GrantedStartIsLawful(h: Host, log: Log, st: Start)
    requires Good(h, log) && RisksRecorded(h, log) && StartOk(h, log, st)
    ensures LawfulStart(h, log, st)
  {
    var before := log[..st.at];
    var n: nat :| GrantedOn(h, before, st.grant, n);
    GoodPrefix(h, log, st.at);
    GoodPrefix(h, before, n);
    GateIsSafe(h, before[..n], st.grant.claim);
    var command := h.normalize(st.grant.claim.command).value;
    if h.classify(command).value.approvalRequired {
      ApprovedRunIsSettled(h, before, n, st.grant.permit.runId);
    }
  }

  /** Over every interleaving with unlocked and possibly stale checks, every execution that was begun
      was lawful at the moment it began. */
  lemma EveryStartIsLawful(h: Host, events: seq<Event>)
    requires FreshEvents(h, events)
    ensures var s := Interleave(h, events);
            forall k | 0 <= k < |s.started| :: LawfulStart(h, s.log, s.started[k])
  {
    var s := Interleave(h, events);
    EachApprovalStartsOnce(h, events);
    RacesKeepRisks(h, events);
    forall k | 0 <= k < |s.started| ensures LawfulStart(h, s.log, s.started[k]) {
      GrantedStartIsLawful(h, s.log, s.started[k]);
    }
  }
}
