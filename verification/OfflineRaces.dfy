/** Several batches of offline commands handled at once: each command's lookup and its insert are separate
    steps, and the unique index on the command id decides between rivals
    (backend/api/offline_sync_api.py, backend/db/indexes.py). */
module OfflineRaces {
  import opened Common
  import opened OfflineSync

  /** A batch being handled: the mark it read when it began, the verdicts so far, and the entry it has
      built for its next command and not yet inserted. */
  datatype InFlight = InFlight(b: Batch, mark: int, verdicts: seq<Verdict>, pending: Option<JournalEntry>)

  datatype System = System(journal: Journal, batches: map<nat, InFlight>)

  datatype Event =
    | Begin(pid: nat, b: Batch)
    | LookUp(pid: nat)            // find the next command's id and apply the rules
    | Insert(pid: nat)            // insert the entry that was built; the index refuses a known id

  predicate Unfinished(f: InFlight) {
    |f.verdicts| < |f.b.commands|
  }

  function Settled(f: InFlight, v: Verdict): InFlight {
    f.(verdicts := f.verdicts + [v], pending := None)
  }

  function LookedUp(digest: Digest, j: Journal, f: InFlight): InFlight
    requires Unfinished(f)
  {
    var i := |f.verdicts|;
    var v := Judge(digest, f.b, f.mark, j, f.b.commands[i], FaultAt(f.b, i));
    if v.Inserted? then f.(pending := Some(v.entry)) else Settled(f, v)
  }

  function Step(digest: Digest, s: System, ev: Event): System {
    match ev
    case Begin(pid, b) =>
      if pid in s.batches then s
      else s.(batches := s.batches[pid := InFlight(b, HighWater(s.journal, b.deviceId), [], None)])
    case LookUp(pid) =>
      if pid in s.batches && Unfinished(s.batches[pid]) && s.batches[pid].pending.None?
      then s.(batches := s.batches[pid := LookedUp(digest, s.journal, s.batches[pid])])
      else s
    case Insert(pid) =>
      if pid !in s.batches || s.batches[pid].pending.None? then s
      else
        var f := s.batches[pid];
        var e := f.pending.value;
        if Find(s.journal, e.commandId).Some?
        then s.(batches := s.batches[pid := Settled(f, Refused(InternalError))])
        else
          var v := Inserted(e, FaultAt(f.b, |f.verdicts|) == ActivityLogFails);
          System(s.journal + [e], s.batches[pid := Settled(f, v)])
  }

  function Race(digest: Digest, events: seq<Event>): System {
    if events == [] then System([], map[])
    else Step(digest, Race(digest, events[..|events| - 1]), events[|events| - 1])
  }

  // ---------------------------------------------------------------- a batch on its own

  function Turn(digest: Digest, s: System, pid: nat): System {
    Step(digest, Step(digest, s, LookUp(pid)), Insert(pid))
  }

  function Turns(digest: Digest, s: System, pid: nat, n: nat): System {
    if n == 0 then s else Turn(digest, Turns(digest, s, pid, n - 1), pid)
  }

  /** The state in which the endpoint's loop has handled n commands. */
  function LoopState(digest: Digest, s: System, pid: nat, b: Batch, n: nat): System
    requires n <= |b.commands|
  {
    System(JournalAfter(digest, b, s.journal, n),
           s.batches[pid := InFlight(b, HighWater(s.journal, b.deviceId), Verdicts(digest, b, s.journal, n), None)])
  }

  /** One command without interruption is the loop's body. */
  lemma TurnIsLoopBody(digest: Digest, s: System, pid: nat, b: Batch, n: nat)
    requires n < |b.commands|
    ensures Turn(digest, LoopState(digest, s, pid, b, n), pid) == LoopState(digest, s, pid, b, n + 1)
  {
    var before := LoopState(digest, s, pid, b, n);
    var f := before.batches[pid];
    var v := VerdictAt(digest, b, s.journal, n);
    var looked := Step(digest, before, LookUp(pid));
    assert |f.verdicts| == n && f.verdicts + [v] == Verdicts(digest, b, s.journal, n + 1);
    if v.Inserted? {
      assert looked.batches[pid] == f.(pending := Some(v.entry));
      assert v.entry.commandId == b.commands[n].id;
    } else {
      assert looked.batches[pid] == Settled(f, v);
    }
    var after := Turn(digest, before, pid);
    assert after.batches[pid] == LoopState(digest, s, pid, b, n + 1).batches[pid];
    assert after.batches == LoopState(digest, s, pid, b, n + 1).batches;
  }

  lemma BeginIsLoopStart(digest: Digest, s: System, pid: nat, b: Batch)
    requires pid !in s.batches
    ensures Step(digest, s, Begin(pid, b)) == LoopState(digest, s, pid, b, 0)
  {
    assert Verdicts(digest, b, s.journal, 0) == [] && JournalAfter(digest, b, s.journal, 0) == s.journal;
  }

  lemma {:induction false} TurnsAreLoop(digest: Digest, s: System, pid: nat, b: Batch, n: nat)
    requires pid !in s.batches && n <= |b.commands|
    ensures Turns(digest, Step(digest, s, Begin(pid, b)), pid, n) == LoopState(digest, s, pid, b, n)
  {
    if n == 0 {
      BeginIsLoopStart(digest, s, pid, b);
    } else {
      TurnsAreLoop(digest, s, pid, b, n - 1);
      TurnIsLoopBody(digest, s, pid, b, n - 1);
    }
  }

  /** A batch that nobody interrupts does what `sync_commands` is proved to do. */
  lemma AloneIsSync(digest: Digest, s: System, pid: nat, b: Batch)
    requires pid !in s.batches
    ensures var after := Turns(digest, Step(digest, s, Begin(pid, b)), pid, |b.commands|);
            && after.journal == Sync(digest, b, s.journal)
            && pid in after.batches && Finished(after.batches[pid])
            && after.batches[pid].verdicts == Verdicts(digest, b, s.journal, |b.commands|)
  {
    TurnsAreLoop(digest, s, pid, b, |b.commands|);
  }

  // ---------------------------------------------------------------- the invariant

  /** What a verdict was based on still holds. */
  predicate StillSettled(digest: Digest, j: Journal, f: InFlight, i: nat)
    requires i < |f.verdicts| && i < |f.b.commands|
  {
    var c := f.b.commands[i];
    var found := Find(j, c.id);
    match f.verdicts[i]
    case Duplicate(state) => found.Some? && found.value.payloadHash == c.payloadHash && found.value.state == state
    case Conflict => found.Some?
    case Inserted(e, _) => found == Some(e) && e == NewEntry(digest, f.b, c) && f.mark < c.clientSequence
    case Refused(SequenceTooLow) => c.clientSequence <= f.mark
    case Refused(BlockedPolicy) => f.b.role == "staff" && HasApprovalFields(c.payload)
    case Refused(_) => FaultAt(f.b, i) in {LookupFails, InsertFails} || found.Some?
  }

  ghost predicate BatchOk(digest: Digest, j: Journal, f: InFlight) {
    && |f.verdicts| <= |f.b.commands|
    && -1 <= f.mark <= HighWater(j, f.b.deviceId)
    && (forall i | 0 <= i < |f.verdicts| :: StillSettled(digest, j, f, i))
    && (f.pending.Some? ==>
          && Unfinished(f)
          && f.pending.value == NewEntry(digest, f.b, f.b.commands[|f.verdicts|])
          && f.mark < f.pending.value.clientSequence
          && Passes(f.b, |f.verdicts|))
  }

  /** Neither policy nor a failed lookup or insert stops the command. */
  predicate Passes(b: Batch, i: nat)
    requires i < |b.commands|
  {
    !(b.role == "staff" && HasApprovalFields(b.commands[i].payload)) && FaultAt(b, i) in {NoFault, ActivityLogFails}
  }

  /** An entry of the journal was inserted by a batch, above the mark that batch read. */
  ghost predicate InsertedAbove(digest: Digest, s: System, e: JournalEntry) {
    exists pid :: pid in s.batches && InsertedBy(digest, s.batches[pid].b, s.batches[pid].mark, e)
  }

  ghost predicate Inv(digest: Digest, s: System) {
    && UniqueIds(s.journal)
    && (forall k | 0 <= k < |s.journal| :: 0 <= s.journal[k].clientSequence && InsertedAbove(digest, s, s.journal[k]))
    && (forall pid | pid in s.batches :: BatchOk(digest, s.journal, s.batches[pid]))
  }

  /** The mark after an insert is the greater of the old mark and the inserted sequence: with rivals it
      need not rise, but it never falls. */
  lemma MarkAfterInsert(j: Journal, e: JournalEntry, device: string)
    requires 0 <= e.clientSequence
    ensures HighWater(j + [e], device)
            == if e.deviceId == device && HighWater(j, device) < e.clientSequence then e.clientSequence
               else HighWater(j, device)
  {
    assert (j + [e])[..|j|] == j;
    if NoneOf(j, device) {
      HighWaterExact(j, device);
    }
  }

  lemma MarkIsAtLeastNone(j: Journal, device: string)
    requires forall k | 0 <= k < |j| :: 0 <= j[k].clientSequence
    ensures -1 <= HighWater(j, device)
  {
    HighWaterExact(j, device);
  }

  lemma BatchStaysOk(digest: Digest, j: Journal, e: JournalEntry, f: InFlight)
    requires BatchOk(digest, j, f) && 0 <= e.clientSequence
    ensures BatchOk(digest, j + [e], f)
  {
    MarkAfterInsert(j, e, f.b.deviceId);
    forall i | 0 <= i < |f.verdicts| ensures StillSettled(digest, j + [e], f, i) {
      assert StillSettled(digest, j, f, i);
      if Find(j, f.b.commands[i].id).Some? {
        FindStable(j, j + [e], f.b.commands[i].id);
      }
    }
  }

  lemma SettlingKeepsOk(digest: Digest, j: Journal, f: InFlight, v: Verdict)
    requires BatchOk(digest, j, f) && Unfinished(f) && StillSettled(digest, j, Settled(f, v), |f.verdicts|)
    ensures BatchOk(digest, j, Settled(f, v))
  {
    forall i | 0 <= i < |f.verdicts| ensures StillSettled(digest, j, Settled(f, v), i) {
      assert StillSettled(digest, j, f, i);
    }
  }

  lemma LookUpKeepsOk(digest: Digest, j: Journal, f: InFlight)
    requires BatchOk(digest, j, f) && Unfinished(f) && f.pending.None?
    ensures BatchOk(digest, j, LookedUp(digest, j, f))
  {
    var i := |f.verdicts|;
    var v := Judge(digest, f.b, f.mark, j, f.b.commands[i], FaultAt(f.b, i));
    if v.Inserted? {
      forall k | 0 <= k < |f.verdicts| ensures StillSettled(digest, j, f.(pending := Some(v.entry)), k) {
        assert StillSettled(digest, j, f, k);
      }
    } else {
      SettlingKeepsOk(digest, j, f, v);
    }
  }

  lemma InsertKeepsUnique(j: Journal, e: JournalEntry)
    requires UniqueIds(j) && Find(j, e.commandId).None?
    ensures UniqueIds(j + [e])
  {
    FindExact(j, e.commandId);
  }

  /** Batches stay, with their marks, so what they have inserted stays explained. */
  lemma InsertedAboveStays(digest: Digest, s: System, after: System, e: JournalEntry)
    requires InsertedAbove(digest, s, e)
    requires forall pid | pid in s.batches ::
               pid in after.batches && after.batches[pid].b == s.batches[pid].b
               && after.batches[pid].mark == s.batches[pid].mark
    ensures InsertedAbove(digest, after, e)
  {
    var pid :| pid in s.batches && InsertedBy(digest, s.batches[pid].b, s.batches[pid].mark, e);
    assert pid in after.batches;
  }

  /** The batch that inserts its entry, and the others beside it. */
  lemma InsertKeepsBatches(digest: Digest, j: Journal, f: InFlight, g: InFlight)
    requires BatchOk(digest, j, f) && f.pending.Some? && Find(j, f.pending.value.commandId).None?
    requires BatchOk(digest, j, g)
    ensures BatchOk(digest, j + [f.pending.value], g)
    ensures var v := Inserted(f.pending.value, FaultAt(f.b, |f.verdicts|) == ActivityLogFails);
            BatchOk(digest, j + [f.pending.value], Settled(f, v))
  {
    var e := f.pending.value;
    BatchStaysOk(digest, j, e, f);
    BatchStaysOk(digest, j, e, g);
    FindAppended(j, e);
    SettlingKeepsOk(digest, j + [e], f, Inserted(e, FaultAt(f.b, |f.verdicts|) == ActivityLogFails));
  }

  lemma PendingIsInsertedBy(digest: Digest, j: Journal, f: InFlight)
    requires BatchOk(digest, j, f) && f.pending.Some?
    ensures InsertedBy(digest, f.b, f.mark, f.pending.value)
  {
    assert Carries(digest, f.pending.value, f.b, f.b.commands[|f.verdicts|]);
  }

  lemma InsertExplained(digest: Digest, s: System, pid: nat)
    requires Inv(digest, s) && pid in s.batches && s.batches[pid].pending.Some?
    requires Find(s.journal, s.batches[pid].pending.value.commandId).None?
    ensures var after := Step(digest, s, Insert(pid));
            forall k | 0 <= k < |after.journal| :: InsertedAbove(digest, after, after.journal[k])
  {
    var f := s.batches[pid];
    var e := f.pending.value;
    var after := Step(digest, s, Insert(pid));
    PendingIsInsertedBy(digest, s.journal, f);
    assert pid in after.batches && after.batches[pid].b == f.b && after.batches[pid].mark == f.mark;
    forall entry | entry in s.journal ensures InsertedAbove(digest, after, entry) {
      InsertedAboveStays(digest, s, after, entry);
    }
  }

  lemma InsertKeepsInv(digest: Digest, s: System, pid: nat)
    requires Inv(digest, s) && pid in s.batches && s.batches[pid].pending.Some?
    requires Find(s.journal, s.batches[pid].pending.value.commandId).None?
    ensures Inv(digest, Step(digest, s, Insert(pid)))
  {
    var f := s.batches[pid];
    var e := f.pending.value;
    var after := Step(digest, s, Insert(pid));
    assert BatchOk(digest, s.journal, f);
    InsertKeepsUnique(s.journal, e);
    forall q | q in after.batches ensures BatchOk(digest, after.journal, after.batches[q]) {
      InsertKeepsBatches(digest, s.journal, f, s.batches[q]);
    }
    InsertExplained(digest, s, pid);
  }

  /** A batch changed and the journal did not. */
  lemma BatchChangeKeepsInv(digest: Digest, s: System, pid: nat, f: InFlight)
    requires Inv(digest, s) && BatchOk(digest, s.journal, f)
    requires pid in s.batches ==> s.batches[pid].b == f.b && s.batches[pid].mark == f.mark
    ensures Inv(digest, s.(batches := s.batches[pid := f]))
  {
    var after := s.(batches := s.batches[pid := f]);
    forall k | 0 <= k < |s.journal| ensures InsertedAbove(digest, after, s.journal[k]) {
      InsertedAboveStays(digest, s, after, s.journal[k]);
    }
  }

  lemma StepKeepsInv(digest: Digest, s: System, ev: Event)
    requires Inv(digest, s)
    ensures Inv(digest, Step(digest, s, ev))
  {
    match ev
    case Begin(pid, b) =>
      if pid !in s.batches {
        MarkIsAtLeastNone(s.journal, b.deviceId);
        BatchChangeKeepsInv(digest, s, pid, InFlight(b, HighWater(s.journal, b.deviceId), [], None));
      }
    case LookUp(pid) =>
      if pid in s.batches && Unfinished(s.batches[pid]) && s.batches[pid].pending.None? {
        LookUpKeepsOk(digest, s.journal, s.batches[pid]);
        BatchChangeKeepsInv(digest, s, pid, LookedUp(digest, s.journal, s.batches[pid]));
      }
    case Insert(pid) =>
      if pid in s.batches && s.batches[pid].pending.Some? {
        var f := s.batches[pid];
        if Find(s.journal, f.pending.value.commandId).Some? {
          SettlingKeepsOk(digest, s.journal, f, Refused(InternalError));
          BatchChangeKeepsInv(digest, s, pid, Settled(f, Refused(InternalError)));
        } else {
          InsertKeepsInv(digest, s, pid);
        }
      }
  }

  /** Over every interleaving of batches, of one device or several: command ids stay unique, every entry
      carries a command of some batch with a sequence above the mark that batch read, and what each
      verdict was based on keeps holding. */
  lemma {:induction false} RacesKeepJournal(digest: Digest, events: seq<Event>)
    ensures Inv(digest, Race(digest, events))
  {
    if events != [] {
      RacesKeepJournal(digest, events[..|events| - 1]);
      StepKeepsInv(digest, Race(digest, events[..|events| - 1]), events[|events| - 1]);
    }
  }

  lemma StepOnlyGrows(digest: Digest, s: System, ev: Event, device: string)
    requires Inv(digest, s)
    ensures s.journal <= Step(digest, s, ev).journal
    ensures HighWater(s.journal, device) <= HighWater(Step(digest, s, ev).journal, device)
  {
    if ev.Insert? && ev.pid in s.batches && s.batches[ev.pid].pending.Some? {
      assert BatchOk(digest, s.journal, s.batches[ev.pid]);
      MarkAfterInsert(s.journal, s.batches[ev.pid].pending.value, device);
    }
  }

  /** Entries are never changed and no mark ever falls. */
  lemma {:induction false} RacesOnlyGrow(digest: Digest, events: seq<Event>, k: nat, device: string)
    requires k <= |events|
    ensures Race(digest, events[..k]).journal <= Race(digest, events).journal
    ensures HighWater(Race(digest, events[..k]).journal, device) <= HighWater(Race(digest, events).journal, device)
  {
    if k == |events| {
      assert events[..k] == events;
    } else {
      var init := events[..|events| - 1];
      assert init[..k] == events[..k];
      RacesOnlyGrow(digest, init, k, device);
      RacesKeepJournal(digest, init);
      StepOnlyGrows(digest, Race(digest, init), events[|events| - 1], device);
    }
  }

  // ---------------------------------------------------------------- replay

  predicate Finished(f: InFlight) {
    |f.verdicts| == |f.b.commands| && f.pending.None?
  }

  /** A resent command is acknowledged as before exactly when it carried a payload hash. */
  predicate SameAckIffHashed(f: InFlight, g: InFlight, i: nat)
    requires i < |f.verdicts| && i < |g.verdicts| && i < |f.b.commands|
  {
    var c := f.b.commands[i];
    AckOf(c, f.verdicts[i]).Some? && FaultAt(g.b, i) != LookupFails ==>
      (AckOf(c, g.verdicts[i]) == AckOf(c, f.verdicts[i]) <==> c.payloadHash != "")
  }

  /** g resends what f finished before g began. */
  ghost predicate Resent(f: InFlight, g: InFlight) {
    && Finished(f) && NoWriteFails(f.b) && Resends(f.b, g.b) && f.mark <= g.mark
    && |g.verdicts| <= |g.b.commands| && g.pending.None?
    && forall i | 0 <= i < |g.verdicts| :: !g.verdicts[i].Inserted? && SameAckIffHashed(f, g, i)
  }

  lemma ResentVerdict(digest: Digest, j: Journal, f: InFlight, g: InFlight)
    requires BatchOk(digest, j, f) && Hashed(j) && Resent(f, g) && Unfinished(g)
    ensures Resent(f, LookedUp(digest, j, g))
  {
    var i := |g.verdicts|;
    var c := f.b.commands[i];
    var v := Judge(digest, g.b, g.mark, j, c, FaultAt(g.b, i));
    FindExact(j, c.id);
    assert FaultAt(f.b, i) in {NoFault, ActivityLogFails};
    assert StillSettled(digest, j, f, i);
    assert !v.Inserted?;
    var after := Settled(g, v);
    assert SameAckIffHashed(f, after, i);
    forall k | 0 <= k < i ensures SameAckIffHashed(f, after, k) && !after.verdicts[k].Inserted? {
      assert SameAckIffHashed(f, g, k);
    }
  }

  lemma {:induction false} RacesStayHashed(digest: Digest, events: seq<Event>)
    requires DigestsNonEmpty(digest)
    ensures Hashed(Race(digest, events).journal)
  {
    if events != [] {
      var s, ev := Race(digest, events[..|events| - 1]), events[|events| - 1];
      RacesStayHashed(digest, events[..|events| - 1]);
      RacesKeepJournal(digest, events[..|events| - 1]);
      if ev.Insert? && ev.pid in s.batches && s.batches[ev.pid].pending.Some? {
        assert BatchOk(digest, s.journal, s.batches[ev.pid]);
      }
    }
  }

  /** Batch p is finished, batch q then begins and resends it; and so it stays. */
  ghost predicate Resending(s: System, p: nat, q: nat) {
    p != q && p in s.batches && q in s.batches && Resent(s.batches[p], s.batches[q])
  }

  lemma StepKeepsResending(digest: Digest, s: System, ev: Event, p: nat, q: nat)
    requires Inv(digest, s) && Hashed(s.journal) && Resending(s, p, q)
    ensures Resending(Step(digest, s, ev), p, q)
    ensures ev.Insert? && ev.pid == q ==> Step(digest, s, ev) == s
  {
    if ev == LookUp(q) && Unfinished(s.batches[q]) {
      assert BatchOk(digest, s.journal, s.batches[p]);
      ResentVerdict(digest, s.journal, s.batches[p], s.batches[q]);
    }
  }

  lemma BeginResends(digest: Digest, s: System, p: nat, q: nat, again: Batch)
    requires Inv(digest, s) && p in s.batches && q !in s.batches
    requires Finished(s.batches[p]) && NoWriteFails(s.batches[p].b) && Resends(s.batches[p].b, again)
    ensures Resending(Step(digest, s, Begin(q, again)), p, q)
  {
    assert BatchOk(digest, s.journal, s.batches[p]);
  }

  /** Replay safety over every interleaving: batch p finishes without a failed write; from event k on,
      batch q resends it under the same role, whatever runs beside it and whatever fails this time. q
      inserts nothing, and each command p accepted that q can look up gets the same acknowledgement again
      exactly when it carried a payload hash. */
  lemma {:induction false} RacingReplayIsSafe(digest: Digest, events: seq<Event>, k: nat, p: nat)
    requires DigestsNonEmpty(digest)
    requires k < |events| && events[k].Begin?
    requires var before := Race(digest, events[..k]);
             && p in before.batches && events[k].pid !in before.batches
             && Finished(before.batches[p]) && NoWriteFails(before.batches[p].b)
             && Resends(before.batches[p].b, events[k].b)
    ensures Resending(Race(digest, events), p, events[k].pid)
  {
    var init := events[..|events| - 1];
    RacesKeepJournal(digest, init);
    RacesStayHashed(digest, init);
    if k == |events| - 1 {
      BeginResends(digest, Race(digest, init), p, events[k].pid, events[k].b);
    } else {
      assert init[..k] == events[..k];
      RacingReplayIsSafe(digest, init, k, p);
      StepKeepsResending(digest, Race(digest, init), events[|events| - 1], p, events[k].pid);
    }
  }
}
