/** Quantity edits on a count line: add-quantity and update read the line, then commit through a
    filter on the version they read (backend/api/count_lines_routes.py). */
module QuantityEdits {
  import opened Common

  /** The edited part of a count line; older lines have no version field. */
  datatype Line = Line(version: Option<nat>, counted: real, variance: real, erpQty: real, batches: string)

  /** An accepted request body. `erpStock` is the ERP item's stock when the update looked it up. */
  datatype Edit =
    | Add(amount: real, addBatches: Option<string>)
    | Set(quantity: Option<real>, erpStock: Option<real>, setBatches: Option<string>)

  datatype EditError = NothingToDo | NotOwner | Stale

  datatype User = User(name: string, role: string)

  /** The request checks made before the write. */
  function Refusal(e: Edit, user: User, countedBy: string): Option<EditError> {
    if e.Set? && e.quantity.None? && e.setBatches.None? then Some(NothingToDo)
    else if e.Add? && e.amount == 0.0 then Some(NothingToDo)
    else if user.role != "supervisor" && user.role != "admin" && countedBy != user.name then Some(NotOwner)
    else None
  }

  function Bumped(version: Option<nat>): Option<nat> {
    Some(if version.Some? then version.value + 1 else 1)
  }

  /** `erp_item.stock_qty or count_line.erp_qty or 0`. */
  function Baseline(erpStock: Option<real>, seen: Line): real {
    if erpStock.Some? && erpStock.value != 0.0 then erpStock.value else seen.erpQty
  }

  /** The update document, built from the line as it was read and applied to the stored line. */
  function Effect(stored: Line, e: Edit, seen: Line): Line {
    match e
    case Add(amount, batches) =>
      stored.(counted := stored.counted + amount,
              variance := stored.variance + amount,
              version := Bumped(stored.version),
              batches := if batches.Some? then batches.value else stored.batches)
    case Set(quantity, erpStock, batches) =>
      stored.(counted := if quantity.Some? then quantity.value else stored.counted,
              variance := if quantity.Some? then quantity.value - Baseline(erpStock, seen) else stored.variance,
              version := Bumped(stored.version),
              batches := if batches.Some? then batches.value else stored.batches)
  }

  /** The filter on `_id` and, when the line that was read had one, its version. */
  predicate Matches(stored: Line, seen: Line) {
    seen.version.Some? ==> stored.version == seen.version
  }

  /** What an edit does to the stored line: an addition moves quantity and variance by its amount; setting a
      quantity stores it with its variance against the item's stock or, where that is unknown or zero,
      the line's baseline. The version rises by one and nothing else changes. */
  predicate Shows(after: Line, before: Line, e: Edit, baseline: real) {
    && after.version == Some(if before.version.Some? then before.version.value + 1 else 1)
    && after.erpQty == before.erpQty
    && match e
       case Add(amount, batches) =>
         && after.counted == before.counted + amount && after.variance == before.variance + amount
         && after.batches == (if batches.Some? then batches.value else before.batches)
       case Set(quantity, erpStock, batches) =>
         && (if quantity.None? then after.counted == before.counted && after.variance == before.variance
             else
               after.counted == quantity.value
               && after.variance
                  == quantity.value - (if erpStock.None? || erpStock.value == 0.0 then baseline else erpStock.value))
         && after.batches == (if batches.Some? then batches.value else before.batches)
  }

  /** Supervisors and admins edit any line, others their own. */
  predicate MayEdit(user: User, countedBy: string) {
    user.role in {"supervisor", "admin"} || countedBy == user.name
  }

  /** The edit asks for a change. */
  predicate AsksSomething(e: Edit) {
    match e
    case Add(amount, _) => amount != 0.0
    case Set(quantity, _, batches) => quantity.Some? || batches.Some?
  }

  /** The stored line, changed in place. */
  class StoredLine {
    var line: Line
    const countedBy: string

    constructor (line: Line, countedBy: string)
      ensures this.line == line && this.countedBy == countedBy
    {
      this.line := line;
      this.countedBy := countedBy;
    }

    /** `find_one_and_update`: one atomic filtered write. */
    method FindOneAndUpdate(e: Edit, seen: Line) returns (ok: bool)
      modifies this`line
      ensures ok <==> (seen.version.Some? ==> old(line).version == seen.version)
      ensures line == if ok then Effect(old(line), e, seen) else old(line)
      ensures ok ==> Shows(line, old(line), e, seen.erpQty)
    {
      if seen.version.Some? && line.version != seen.version {
        return false;
      }
      line := Effect(line, e, seen);
      ok := true;
    }

    /** A whole request that nobody interrupts between its read and its write always commits. */
    method Apply(e: Edit, user: User) returns (r: Result<Line, EditError>)
      modifies this`line
      ensures r == match Refusal(e, user, countedBy)
                   case Some(error) => Err(error)
                   case None => Ok(line)
      ensures r == Err(NothingToDo) <==> !AsksSomething(e)
      ensures r == Err(NotOwner) <==> AsksSomething(e) && !MayEdit(user, countedBy)
      ensures r.Ok? ==> Shows(line, old(line), e, old(line).erpQty)
      ensures r.Err? ==> line == old(line)
    {
      var seen := line;
      var refusal := Refusal(e, user, countedBy);
      if refusal.Some? {
        return Err(refusal.value);
      }
      var ok := FindOneAndUpdate(e, seen);
      if !ok {
        return Err(Stale);
      }
      r := Ok(line);
    }
  }

  // ---------------------------------------------------------------- interleaved requests

  /** A request between its read and its commit; `readAt` counts the commits before the read. */
  datatype Ticket = Ticket(edit: Edit, seen: Line, readAt: nat)

  datatype System = System(line: Line, tickets: map<nat, Ticket>, commits: seq<Edit>)

  datatype Event = Read(pid: nat, edit: Edit) | Commit(pid: nat)

  function Step(s: System, ev: Event): System {
    match ev
    case Read(pid, edit) => s.(tickets := s.tickets[pid := Ticket(edit, s.line, |s.commits|)])
    case Commit(pid) =>
      if pid !in s.tickets then s
      else
        var t := s.tickets[pid];
        var rest := s.(tickets := s.tickets - {pid});
        if Matches(s.line, t.seen)
        then rest.(line := Effect(s.line, t.edit, t.seen), commits := s.commits + [t.edit])
        else rest
  }

  function Run(initial: Line, events: seq<Event>): System {
    if events == [] then System(initial, map[], [])
    else Step(Run(initial, events[..|events| - 1]), events[|events| - 1])
  }

  /** The edits one after another, each reading what the one before it wrote. */
  function Replay(initial: Line, edits: seq<Edit>): Line {
    if edits == [] then initial
    else
      var before := Replay(initial, edits[..|edits| - 1]);
      Effect(before, edits[|edits| - 1], before)
  }

  lemma ReplaySnoc(initial: Line, edits: seq<Edit>, e: Edit)
    ensures Replay(initial, edits + [e]) == Effect(Replay(initial, edits), e, Replay(initial, edits))
  {
    assert (edits + [e])[..|edits|] == edits;
  }

  /** The version counts commits, from where it started or, on a line without one, from the first. */
  function VersionAfter(initial: Line, commits: nat): Option<nat> {
    if commits == 0 then initial.version
    else Some((if initial.version.Some? then initial.version.value else 0) + commits)
  }

  /** What a pending request read is the line as it stood after `readAt` commits. */
  predicate Current(initial: Line, s: System, t: Ticket) {
    && t.seen.erpQty == s.line.erpQty
    && t.readAt <= |s.commits|
    && (t.readAt == |s.commits| ==> t.seen == s.line)
    && t.seen.version == VersionAfter(initial, t.readAt)
  }

  predicate Serial(initial: Line, s: System) {
    && s.line == Replay(initial, s.commits)
    && s.line.erpQty == initial.erpQty
    && s.line.version == VersionAfter(initial, |s.commits|)
    && forall pid | pid in s.tickets :: Current(initial, s, s.tickets[pid])
  }

  lemma TicketStaysCurrent(initial: Line, s: System, committed: nat, pid: nat)
    requires Serial(initial, s) && committed in s.tickets && pid in s.tickets && pid != committed
    ensures var after := Step(s, Commit(committed));
            pid in after.tickets && Current(initial, after, after.tickets[pid])
  {
    assert Current(initial, s, s.tickets[pid]);
  }

  lemma StepStaysSerial(initial: Line, s: System, ev: Event)
    requires Serial(initial, s)
    ensures Serial(initial, Step(s, ev))
  {
    if ev.Commit? && ev.pid in s.tickets {
      var t := s.tickets[ev.pid];
      assert Current(initial, s, t);
      ReplaySnoc(initial, s.commits, t.edit);
      assert Effect(s.line, t.edit, t.seen) == Effect(s.line, t.edit, s.line);
      var after := Step(s, ev);
      assert after.line.version == VersionAfter(initial, |after.commits|) && after.line.erpQty == s.line.erpQty;
      forall pid | pid in after.tickets ensures Current(initial, after, after.tickets[pid]) {
        TicketStaysCurrent(initial, s, ev.pid, pid);
      }
    }
  }

  /** Over every interleaving of reads and commits, the stored line is the serial replay of the
      committed edits in commit order, and the version counts the commits. */
  lemma {:induction false} EditsSerialize(initial: Line, events: seq<Event>)
    ensures Serial(initial, Run(initial, events))
  {
    if events != [] {
      EditsSerialize(initial, events[..|events| - 1]);
      StepStaysSerial(initial, Run(initial, events[..|events| - 1]), events[|events| - 1]);
    }
  }

  /** A commit succeeds exactly when nothing was committed since its read, or it read the line before
      the first commit gave it a version; and what it read is what is stored exactly when nothing was
      committed since. */
  lemma CommitSucceedsIffCurrent(initial: Line, events: seq<Event>, pid: nat)
    requires pid in Run(initial, events).tickets
    ensures var s := Run(initial, events);
            var t := s.tickets[pid];
            && (t.seen.version.None? <==> initial.version.None? && t.readAt == 0)
            && (Matches(s.line, t.seen) <==> t.readAt == |s.commits| || t.seen.version.None?)
            && (t.seen == s.line <==> t.readAt == |s.commits|)
            && |Step(s, Commit(pid)).commits| == |s.commits| + if Matches(s.line, t.seen) then 1 else 0
  {
    EditsSerialize(initial, events);
    var s := Run(initial, events);
    assert Current(initial, s, s.tickets[pid]);
  }

  /** What each commit does: it goes through exactly when the version it read, if any, still stands, and
      then shows its edit on the line as stored. */
  lemma EveryCommitShows(initial: Line, events: seq<Event>, pid: nat)
    requires pid in Run(initial, events).tickets
    ensures var s := Run(initial, events);
            var (t, after) := (s.tickets[pid], Step(s, Commit(pid)));
            if t.seen.version.None? || t.seen.version == s.line.version
            then Shows(after.line, s.line, t.edit, initial.erpQty) && after.commits == s.commits + [t.edit]
            else after.line == s.line && after.commits == s.commits
  {
    EditsSerialize(initial, events);
    var s := Run(initial, events);
    assert Current(initial, s, s.tickets[pid]);
    assert s.tickets[pid].seen.erpQty == initial.erpQty;
  }

  /** A commit about to go through on a line that is no longer what its request read. */
  predicate StaleCommit(s: System, pid: nat) {
    pid in s.tickets && Matches(s.line, s.tickets[pid].seen) && s.tickets[pid].seen != s.line
  }

  /** Over all interleavings: an edit is built on a line it has not seen exactly when the line started
      without a version. */
  lemma StaleCommitsIffUnversioned(initial: Line)
    ensures (exists events, pid :: StaleCommit(Run(initial, events), pid)) <==> initial.version.None?
  {
    forall events, pid | StaleCommit(Run(initial, events), pid) ensures initial.version.None? {
      CommitSucceedsIffCurrent(initial, events, pid);
    }
    if initial.version.None? {
      var e := Add(1.0, None);
      var s2 := Step(Step(System(initial, map[], []), Read(0, e)), Read(1, e));
      assert 0 in s2.tickets && 1 in s2.tickets;
      RunSnoc(initial, [], Read(0, e));
      RunSnoc(initial, [Read(0, e)], Read(1, e));
      RunSnoc(initial, [Read(0, e), Read(1, e)], Commit(0));
      assert StaleCommit(Run(initial, [Read(0, e), Read(1, e)] + [Commit(0)]), 1);
    }
  }

  lemma RunSnoc(initial: Line, events: seq<Event>, ev: Event)
    ensures Run(initial, events + [ev]) == Step(Run(initial, events), ev)
  {
    assert (events + [ev])[..|events|] == events;
  }

  // ---------------------------------------------------------------- the stored variance

  /** The baseline behind the stored variance: that of the last update that set a quantity, or the
      line's original one. Additions do not move it. */
  function ImpliedBaseline(initial: Line, edits: seq<Edit>): real {
    if edits == [] then initial.counted - initial.variance
    else
      var e := edits[|edits| - 1];
      if e.Set? && e.quantity.Some? then Baseline(e.erpStock, initial)
      else ImpliedBaseline(initial, edits[..|edits| - 1])
  }

  lemma {:induction false} ReplayBaseline(initial: Line, edits: seq<Edit>)
    ensures Replay(initial, edits).erpQty == initial.erpQty
    ensures Replay(initial, edits).counted - Replay(initial, edits).variance == ImpliedBaseline(initial, edits)
  {
    if edits != [] {
      ReplayBaseline(initial, edits[..|edits| - 1]);
    }
  }

  /** `variance == counted_qty - erp_qty` is not kept: it holds after a run exactly when the last
      update that set a quantity saw the line's own baseline as the item's stock (or saw none). */
  lemma VarianceMatchesLineIff(initial: Line, events: seq<Event>)
    ensures var s := Run(initial, events);
            s.line.variance == s.line.counted - s.line.erpQty
            <==> ImpliedBaseline(initial, s.commits) == initial.erpQty
  {
    EditsSerialize(initial, events);
    ReplayBaseline(initial, Run(initial, events).commits);
  }

  predicate OnlyAdditions(edits: seq<Edit>) {
    forall i | 0 <= i < |edits| :: edits[i].Add?
  }

  function Amounts(edits: seq<Edit>): real {
    if edits == [] then 0.0
    else Amounts(edits[..|edits| - 1]) + if edits[|edits| - 1].Add? then edits[|edits| - 1].amount else 0.0
  }

  lemma {:induction false} ReplayAdds(initial: Line, edits: seq<Edit>)
    requires OnlyAdditions(edits)
    ensures Replay(initial, edits).counted == initial.counted + Amounts(edits)
    ensures Replay(initial, edits).variance == initial.variance + Amounts(edits)
  {
    if edits != [] {
      ReplayAdds(initial, edits[..|edits| - 1]);
    }
  }

  /** When everything committed was an addition, none is lost: quantity and variance have both moved
      by the sum of the committed amounts. */
  lemma NoAdditionIsLost(initial: Line, events: seq<Event>)
    requires OnlyAdditions(Run(initial, events).commits)
    ensures var s := Run(initial, events);
            && s.line.counted == initial.counted + Amounts(s.commits)
            && s.line.variance == initial.variance + Amounts(s.commits)
  {
    EditsSerialize(initial, events);
    ReplayAdds(initial, Run(initial, events).commits);
  }
}
