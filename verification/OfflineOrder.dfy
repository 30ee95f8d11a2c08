/** When a device's entries stay in order although its batches overlap: the mark is read once per batch,
    so what another batch inserts meanwhile is not seen (backend/api/offline_sync_api.py). */
module OfflineOrder {
  import opened Common
  import opened OfflineSync
  import opened OfflineRaces

  // ---------------------------------------------------------------- one batch of a device at a time

  /** An entry the batch has inserted. */
  predicate InsertedOf(f: InFlight, e: JournalEntry) {
    exists i | 0 <= i < |f.verdicts| :: f.verdicts[i].Inserted? && f.verdicts[i].entry == e
  }

  /** Beyond the mark the batch read, the device has only what the batch has inserted. */
  predicate OwnAboveMark(j: Journal, f: InFlight) {
    forall k | 0 <= k < |j| && j[k].deviceId == f.b.deviceId && f.mark < j[k].clientSequence :: InsertedOf(f, j[k])
  }

  /** No batch of the device but this one is at work. */
  predicate AloneOnDevice(s: System, pid: nat)
    requires pid in s.batches
  {
    forall q | q in s.batches && q != pid && s.batches[q].b.deviceId == s.batches[pid].b.deviceId ::
      Finished(s.batches[q])
  }

  lemma InsertedStays(f: InFlight, v: Verdict, e: JournalEntry)
    requires InsertedOf(f, e)
    ensures InsertedOf(Settled(f, v), e)
  {
    var i :| 0 <= i < |f.verdicts| && f.verdicts[i].Inserted? && f.verdicts[i].entry == e;
    assert Settled(f, v).verdicts[i] == f.verdicts[i];
  }

  /** No batch of this device begins. */
  predicate NotBegunFor(ev: Event, device: string) {
    ev.Begin? ==> ev.b.deviceId != device
  }

  /** The batch gets a verdict, and with it the entry it inserted, if any. */
  lemma SettlingKeepsOwn(j: Journal, f: InFlight, v: Verdict)
    requires OwnAboveMark(j, f)
    ensures OwnAboveMark(j, Settled(f, v))
    ensures v.Inserted? ==> OwnAboveMark(j + [v.entry], Settled(f, v))
  {
    forall e | InsertedOf(f, e) ensures InsertedOf(Settled(f, v), e) {
      InsertedStays(f, v, e);
    }
    if v.Inserted? {
      assert Settled(f, v).verdicts[|f.verdicts|] == v;
      assert InsertedOf(Settled(f, v), v.entry);
    }
  }

  lemma PendingKeepsOwn(j: Journal, f: InFlight, pending: Option<JournalEntry>)
    requires OwnAboveMark(j, f)
    ensures OwnAboveMark(j, f.(pending := pending))
  {
    forall e | InsertedOf(f, e) ensures InsertedOf(f.(pending := pending), e) {
    }
  }

  /** A finished batch inserts nothing, and a batch of another device nothing of this one. */
  lemma OthersKeepOwn(digest: Digest, s: System, q: nat, pid: nat)
    requires OfflineRaces.Inv(digest, s) && pid in s.batches && q != pid && AloneOnDevice(s, pid)
    requires OwnAboveMark(s.journal, s.batches[pid])
    ensures OwnAboveMark(Step(digest, s, Insert(q)).journal, s.batches[pid])
  {
    if q in s.batches && s.batches[q].pending.Some? {
      assert BatchOk(digest, s.journal, s.batches[q]);
    }
  }

  lemma OwnStepKeepsOwn(digest: Digest, s: System, ev: Event, pid: nat)
    requires pid in s.batches && OwnAboveMark(s.journal, s.batches[pid]) && !ev.Begin? && ev.pid == pid
    ensures pid in Step(digest, s, ev).batches
    ensures OwnAboveMark(Step(digest, s, ev).journal, Step(digest, s, ev).batches[pid])
  {
    var f, j := s.batches[pid], s.journal;
    if ev.LookUp? && Unfinished(f) && f.pending.None? {
      var i := |f.verdicts|;
      var v := Judge(digest, f.b, f.mark, j, f.b.commands[i], FaultAt(f.b, i));
      if v.Inserted? {
        PendingKeepsOwn(j, f, Some(v.entry));
      } else {
        SettlingKeepsOwn(j, f, v);
      }
    } else if ev.Insert? && f.pending.Some? {
      var e := f.pending.value;
      SettlingKeepsOwn(j, f, Refused(InternalError));
      SettlingKeepsOwn(j, f, Inserted(e, FaultAt(f.b, |f.verdicts|) == ActivityLogFails));
    }
  }

  /** Batches keep what they are and the mark they read, and stay finished. */
  lemma BatchesStay(digest: Digest, s: System, ev: Event, q: nat)
    requires q in s.batches
    ensures var after := Step(digest, s, ev);
            && q in after.batches && after.batches[q].b == s.batches[q].b && after.batches[q].mark == s.batches[q].mark
            && (Finished(s.batches[q]) ==> after.batches[q] == s.batches[q])
            && ((ev.Begin? || ev.pid != q) ==> after.batches[q] == s.batches[q])
  {
  }

  lemma StepKeepsAlone(digest: Digest, s: System, ev: Event, pid: nat)
    requires OfflineRaces.Inv(digest, s) && pid in s.batches && AloneOnDevice(s, pid)
    requires NotBegunFor(ev, s.batches[pid].b.deviceId) && OwnAboveMark(s.journal, s.batches[pid])
    ensures var after := Step(digest, s, ev);
            && pid in after.batches && after.batches[pid].b == s.batches[pid].b
            && after.batches[pid].mark == s.batches[pid].mark
            && AloneOnDevice(after, pid) && OwnAboveMark(after.journal, after.batches[pid])
  {
    var after := Step(digest, s, ev);
    BatchesStay(digest, s, ev, pid);
    forall q | q in after.batches && q != pid && after.batches[q].b.deviceId == after.batches[pid].b.deviceId
      ensures Finished(after.batches[q])
    {
      if q in s.batches {
        BatchesStay(digest, s, ev, q);
      }
    }
    if !ev.Begin? && ev.pid == pid {
      OwnStepKeepsOwn(digest, s, ev, pid);
    } else if ev.Insert? {
      OthersKeepOwn(digest, s, ev.pid, pid);
    }
  }

  /** Batch p begins at event k while no other batch of its device is at work, and none begins after it:
      whatever other devices do beside it, it raises the device's mark exactly if it inserts something. */
  lemma {:induction false} SoleBatchKeepsAlone(digest: Digest, events: seq<Event>, k: nat)
    requires k < |events| && events[k].Begin?
    requires var before := Race(digest, events[..k]);
             && events[k].pid !in before.batches
             && forall q | q in before.batches && before.batches[q].b.deviceId == events[k].b.deviceId ::
                  Finished(before.batches[q])
    requires forall i | k < i < |events| :: NotBegunFor(events[i], events[k].b.deviceId)
    ensures var (s, p) := (Race(digest, events), events[k].pid);
            && p in s.batches && s.batches[p].b == events[k].b
            && s.batches[p].mark == HighWater(Race(digest, events[..k]).journal, events[k].b.deviceId)
            && AloneOnDevice(s, p) && OwnAboveMark(s.journal, s.batches[p])
  {
    var init := events[..|events| - 1];
    RacesKeepJournal(digest, init);
    if k == |events| - 1 {
      HighWaterExact(Race(digest, init).journal, events[k].b.deviceId);
    } else {
      assert init[..k] == events[..k];
      SoleBatchKeepsAlone(digest, init, k);
      StepKeepsAlone(digest, Race(digest, init), events[|events| - 1], events[k].pid);
    }
  }

  lemma SoleBatchRaisesMarkIff(digest: Digest, events: seq<Event>, k: nat)
    requires k < |events| && events[k].Begin?
    requires var before := Race(digest, events[..k]);
             && events[k].pid !in before.batches
             && forall q | q in before.batches && before.batches[q].b.deviceId == events[k].b.deviceId ::
                  Finished(before.batches[q])
    requires forall i | k < i < |events| :: NotBegunFor(events[i], events[k].b.deviceId)
    ensures var (before, s, p) := (Race(digest, events[..k]), Race(digest, events), events[k].pid);
            && p in s.batches
            && (HighWater(before.journal, events[k].b.deviceId) < HighWater(s.journal, events[k].b.deviceId)
                <==> exists i | 0 <= i < |s.batches[p].verdicts| :: s.batches[p].verdicts[i].Inserted?)
  {
    SoleBatchKeepsAlone(digest, events, k);
    RacesKeepJournal(digest, events);
    MarkRisesIffInserted(digest, Race(digest, events), events[k].pid);
  }

  lemma MarkRisesIffInserted(digest: Digest, s: System, pid: nat)
    requires OfflineRaces.Inv(digest, s) && pid in s.batches && OwnAboveMark(s.journal, s.batches[pid])
    ensures var f := s.batches[pid];
            f.mark < HighWater(s.journal, f.b.deviceId)
            <==> exists i | 0 <= i < |f.verdicts| :: f.verdicts[i].Inserted?
  {
    var f := s.batches[pid];
    assert BatchOk(digest, s.journal, f);
    HighWaterExact(s.journal, f.b.deviceId);
    if i :| 0 <= i < |f.verdicts| && f.verdicts[i].Inserted? {
      assert StillSettled(digest, s.journal, f, i);
      FindExact(s.journal, f.b.commands[i].id);
      assert f.verdicts[i].entry in s.journal;
    }
  }

  /** A batch begins only when every other batch of its device is finished. */
  ghost predicate Serially(digest: Digest, events: seq<Event>) {
    forall k | 0 <= k < |events| && events[k].Begin? :: BeginsAlone(Race(digest, events[..k]), events[k])
  }

  predicate BeginsAlone(s: System, ev: Event)
    requires ev.Begin?
  {
    forall q | q in s.batches && s.batches[q].b.deviceId == ev.b.deviceId :: Finished(s.batches[q])
  }

  predicate BatchesSorted(events: seq<Event>, device: string) {
    forall k | 0 <= k < |events| && events[k].Begin? && events[k].b.deviceId == device ::
      Ascending(events[k].b.commands)
  }

  /** Unfinished batches of the device are alone, sorted, and own what is above their mark. */
  ghost predicate OneAtWork(s: System, device: string) {
    forall pid | pid in s.batches && s.batches[pid].b.deviceId == device ::
      Ascending(s.batches[pid].b.commands)
      && (!Finished(s.batches[pid]) ==> AloneOnDevice(s, pid) && OwnAboveMark(s.journal, s.batches[pid]))
  }

  lemma StepKeepsOneAtWork(digest: Digest, s: System, ev: Event, device: string)
    requires OfflineRaces.Inv(digest, s) && OneAtWork(s, device)
    requires ev.Begin? ==> BeginsAlone(s, ev) && (ev.b.deviceId == device ==> Ascending(ev.b.commands))
    ensures OneAtWork(Step(digest, s, ev), device)
  {
    var after := Step(digest, s, ev);
    forall pid | pid in after.batches && after.batches[pid].b.deviceId == device && !Finished(after.batches[pid])
      ensures AloneOnDevice(after, pid) && OwnAboveMark(after.journal, after.batches[pid])
    {
      if pid in s.batches {
        BatchesStay(digest, s, ev, pid);
        if NotBegunFor(ev, device) {
          StepKeepsAlone(digest, s, ev, pid);
        }
      } else {
        HighWaterExact(s.journal, device);
      }
    }
    forall pid | pid in after.batches && after.batches[pid].b.deviceId == device
      ensures Ascending(after.batches[pid].b.commands)
    {
      if pid in s.batches {
        BatchesStay(digest, s, ev, pid);
      }
    }
  }

  /** What a sorted batch inserts while alone lies above all the device has. */
  lemma InsertsOnTop(digest: Digest, s: System, pid: nat, k: nat)
    requires OfflineRaces.Inv(digest, s) && pid in s.batches && s.batches[pid].pending.Some? && k < |s.journal|
    requires OneAtWork(s, s.batches[pid].b.deviceId) && s.journal[k].deviceId == s.batches[pid].b.deviceId
    ensures s.journal[k].clientSequence < s.batches[pid].pending.value.clientSequence
  {
    var f := s.batches[pid];
    assert BatchOk(digest, s.journal, f) && !Finished(f) && OwnAboveMark(s.journal, f);
    if f.mark < s.journal[k].clientSequence {
      var i :| 0 <= i < |f.verdicts| && f.verdicts[i].Inserted? && f.verdicts[i].entry == s.journal[k];
      assert StillSettled(digest, s.journal, f, i);
    }
  }

  lemma StepKeepsOrder(digest: Digest, s: System, ev: Event, device: string)
    requires OfflineRaces.Inv(digest, s) && OneAtWork(s, device) && Ordered(s.journal, device)
    ensures Ordered(Step(digest, s, ev).journal, device)
  {
    if ev.Insert? && ev.pid in s.batches && s.batches[ev.pid].pending.Some? && s.batches[ev.pid].b.deviceId == device {
      forall k | 0 <= k < |s.journal| && s.journal[k].deviceId == device
        ensures s.journal[k].clientSequence < s.batches[ev.pid].pending.value.clientSequence
      {
        InsertsOnTop(digest, s, ev.pid, k);
      }
    } else if ev.Insert? && ev.pid in s.batches && s.batches[ev.pid].pending.Some? {
      assert BatchOk(digest, s.journal, s.batches[ev.pid]);
    }
  }

  /** One batch of a device at a time, each sorted by sequence: the device's entries stay in order,
      whatever other devices do beside it and whatever fails. */
  lemma {:induction false} SerialSortedKeepsOrder(digest: Digest, events: seq<Event>, device: string)
    requires Serially(digest, events) && BatchesSorted(events, device)
    ensures OneAtWork(Race(digest, events), device) && Ordered(Race(digest, events).journal, device)
  {
    if events != [] {
      var init, ev := events[..|events| - 1], events[|events| - 1];
      forall k | 0 <= k < |init| && init[k].Begin? ensures BeginsAlone(Race(digest, init[..k]), init[k]) {
        assert init[..k] == events[..k];
      }
      SerialSortedKeepsOrder(digest, init, device);
      RacesKeepJournal(digest, init);
      StepKeepsOneAtWork(digest, Race(digest, init), ev, device);
      StepKeepsOrder(digest, Race(digest, init), ev, device);
    }
  }

  // ---------------------------------------------------------------- overlapping batches

  /** The batches that may be sent, each once. */
  type Batches = map<nat, Batch>

  predicate Among(batches: Batches, ev: Event) {
    ev.Begin? ==> ev.pid in batches && batches[ev.pid] == ev.b
  }

  predicate AllAmong(batches: Batches, events: seq<Event>) {
    forall k | 0 <= k < |events| :: Among(batches, events[k])
  }

  /** The command can be inserted: nothing but an entry with its id or a high mark stands in its way. */
  predicate Candidate(b: Batch, i: nat)
    requires i < |b.commands|
  {
    0 <= b.commands[i].clientSequence && Passes(b, i)
  }

  /** Some earlier command of the batch would have inserted this id. */
  predicate Claimed(b: Batch, i: nat, id: string)
    requires i <= |b.commands|
  {
    exists m | 0 <= m < i :: Candidate(b, m) && b.commands[m].id == id
  }

  predicate First(b: Batch, i: nat)
    requires i < |b.commands|
  {
    Candidate(b, i) && !Claimed(b, i, b.commands[i].id)
  }

  /** Command i of the first batch can be inserted before command k of the second. */
  predicate CanPrecede(batches: Batches, device: string, p: nat, i: nat, q: nat, k: nat) {
    && p in batches && q in batches && batches[p].deviceId == device && batches[q].deviceId == device
    && i < |batches[p].commands| && k < |batches[q].commands| && (p == q ==> i < k)
    && First(batches[p], i) && First(batches[q], k)
    && batches[p].commands[i].id != batches[q].commands[k].id
    && !Claimed(batches[p], i, batches[q].commands[k].id)
  }

  /** Whatever can be inserted before another command has a lower sequence. */
  ghost predicate InOrder(batches: Batches, device: string) {
    forall p: nat, i: nat, q: nat, k: nat | CanPrecede(batches, device, p, i, q, k) ::
      batches[p].commands[i].clientSequence < batches[q].commands[k].clientSequence
  }

  // ---- batches in order keep the order

  /** Entry x of the journal is command i of batch p. */
  predicate SourceOf(s: System, x: nat, p: nat, i: nat) {
    && x < |s.journal| && p in s.batches && i < |s.batches[p].verdicts|
    && s.batches[p].verdicts[i].Inserted? && s.batches[p].verdicts[i].entry == s.journal[x]
  }

  ghost predicate HasSource(s: System, x: nat) {
    exists p: nat, i: nat :: SourceOf(s, x, p, i)
  }

  predicate HeldBefore(j: Journal, x: nat, id: string)
    requires x <= |j|
  {
    exists y | 0 <= y < x :: j[y].commandId == id
  }

  /** What an inserted command's batch would have inserted earlier stands before it. */
  predicate ClaimsHeld(s: System, x: nat, p: nat, i: nat)
    requires SourceOf(s, x, p, i) && i <= |s.batches[p].b.commands|
  {
    forall m | 0 <= m < i && Candidate(s.batches[p].b, m) :: HeldBefore(s.journal, x, s.batches[p].b.commands[m].id)
  }

  /** The mark a batch read is that of an entry, if not -1. */
  predicate MarkHeld(j: Journal, f: InFlight) {
    f.mark == -1 || exists y | 0 <= y < |j| :: j[y].deviceId == f.b.deviceId && j[y].clientSequence == f.mark
  }

  ghost predicate BatchesKnown(batches: Batches, s: System) {
    forall p | p in s.batches :: p in batches && batches[p] == s.batches[p].b && MarkHeld(s.journal, s.batches[p])
  }

  ghost predicate AllSourced(s: System) {
    forall x: nat | x < |s.journal| :: HasSource(s, x)
  }

  predicate SourceIsFirst(s: System, x: nat, p: nat, i: nat)
    requires SourceOf(s, x, p, i)
  {
    i < |s.batches[p].b.commands| && First(s.batches[p].b, i) && ClaimsHeld(s, x, p, i)
  }

  ghost predicate SourcesFirst(s: System, device: string) {
    forall x: nat, p: nat, i: nat | SourceOf(s, x, p, i) && s.batches[p].b.deviceId == device ::
      SourceIsFirst(s, x, p, i)
  }

  ghost predicate Tracked(digest: Digest, batches: Batches, s: System, device: string) {
    OfflineRaces.Inv(digest, s) && BatchesKnown(batches, s) && AllSourced(s) && SourcesFirst(s, device)
  }

  lemma SourceFacts(digest: Digest, s: System, x: nat, p: nat, i: nat)
    requires OfflineRaces.Inv(digest, s) && SourceOf(s, x, p, i)
    ensures i < |s.batches[p].b.commands|
    ensures var (f, c) := (s.batches[p], s.batches[p].b.commands[i]);
            && s.journal[x] == NewEntry(digest, f.b, c) && s.journal[x].deviceId == f.b.deviceId
            && f.mark < c.clientSequence
  {
    assert BatchOk(digest, s.journal, s.batches[p]);
    assert StillSettled(digest, s.journal, s.batches[p], i);
  }

  /** Within one batch the entries come in the batch's order. */
  ghost predicate SameBatchInOrder(s: System) {
    forall x: nat, y: nat, p: nat, i: nat, k: nat | SourceOf(s, x, p, i) && SourceOf(s, y, p, k) && x < y :: i < k
  }

  lemma TrackedIsOrdered(digest: Digest, batches: Batches, s: System, device: string)
    requires Tracked(digest, batches, s, device) && SameBatchInOrder(s) && InOrder(batches, device)
    ensures Ordered(s.journal, device)
  {
    forall x: nat, y: nat | x < y < |s.journal| && s.journal[x].deviceId == device && s.journal[y].deviceId == device
      ensures s.journal[x].clientSequence < s.journal[y].clientSequence
    {
      assert HasSource(s, x) && HasSource(s, y);
      var p: nat, i: nat :| SourceOf(s, x, p, i);
      var q: nat, k: nat :| SourceOf(s, y, q, k);
      SourceFacts(digest, s, x, p, i);
      SourceFacts(digest, s, y, q, k);
      EntriesCanPrecede(batches, s, device, x, p, i, y, q, k);
    }
  }

  lemma EntriesCanPrecede(batches: Batches, s: System, device: string, x: nat, p: nat, i: nat, y: nat, q: nat, k: nat)
    requires UniqueIds(s.journal) && x < y && SourceOf(s, x, p, i) && SourceOf(s, y, q, k) && (p == q ==> i < k)
    requires p in batches && q in batches && batches[p] == s.batches[p].b && batches[q] == s.batches[q].b
    requires batches[p].deviceId == device && batches[q].deviceId == device
    requires i < |batches[p].commands| && k < |batches[q].commands|
    requires First(batches[p], i) && First(batches[q], k) && ClaimsHeld(s, x, p, i)
    requires s.journal[x].commandId == batches[p].commands[i].id && s.journal[y].commandId == batches[q].commands[k].id
    ensures CanPrecede(batches, device, p, i, q, k)
  {
    ClaimedIsHeld(s, x, p, i, batches[q].commands[k].id);
    NotHeldEarlier(s.journal, x, y);
  }

  lemma ClaimedIsHeld(s: System, x: nat, p: nat, i: nat, id: string)
    requires SourceOf(s, x, p, i) && i <= |s.batches[p].b.commands| && ClaimsHeld(s, x, p, i)
    ensures Claimed(s.batches[p].b, i, id) ==> HeldBefore(s.journal, x, id)
  {
  }

  lemma NotHeldEarlier(j: Journal, x: nat, y: nat)
    requires UniqueIds(j) && x <= y < |j|
    ensures !HeldBefore(j, x, j[y].commandId)
  {
  }

  lemma {:induction false} FirstOfItsId(b: Batch, m: nat) returns (n: nat)
    requires m < |b.commands| && Candidate(b, m)
    ensures n <= m && First(b, n) && b.commands[n].id == b.commands[m].id
  {
    n := m;
    if Claimed(b, m, b.commands[m].id) {
      var l: nat :| l < m && Candidate(b, l) && b.commands[l].id == b.commands[m].id;
      n := FirstOfItsId(b, l);
    }
  }

  /** A command that was refused for a mark another command set: its id stands, because that other
      command's batch had it inserted or found before. */
  lemma TooLowIsHeld(digest: Digest, batches: Batches, s: System, device: string, p: nat, m: nat)
    requires Tracked(digest, batches, s, device) && InOrder(batches, device)
    requires p in s.batches && s.batches[p].b.deviceId == device && m < |s.batches[p].b.commands|
    requires First(s.batches[p].b, m) && s.batches[p].b.commands[m].clientSequence <= s.batches[p].mark
    ensures HeldBefore(s.journal, |s.journal|, s.batches[p].b.commands[m].id)
  {
    var f := s.batches[p];
    var id := f.b.commands[m].id;
    assert MarkHeld(s.journal, f);
    var y: nat :| y < |s.journal| && s.journal[y].deviceId == device && s.journal[y].clientSequence == f.mark;
    assert HasSource(s, y);
    var r: nat, l: nat :| SourceOf(s, y, r, l);
    SourceFacts(digest, s, y, r, l);
    ClaimedIsHeld(s, y, r, l, id);
    assert HeldBefore(s.journal, y, id) ==> HeldBefore(s.journal, |s.journal|, id);
    assert CanPrecede(batches, device, r, l, p, m) <==> s.journal[y].commandId != id && !Claimed(batches[r], l, id);
  }

  /** Every command a batch has dealt with and could have inserted stands in the journal. */
  lemma CandidateIsHeld(digest: Digest, batches: Batches, s: System, device: string, p: nat, m: nat)
    requires Tracked(digest, batches, s, device) && InOrder(batches, device)
    requires p in s.batches && s.batches[p].b.deviceId == device && m < |s.batches[p].verdicts|
    requires m < |s.batches[p].b.commands| && Candidate(s.batches[p].b, m)
    ensures HeldBefore(s.journal, |s.journal|, s.batches[p].b.commands[m].id)
  {
    var f := s.batches[p];
    var n := FirstOfItsId(f.b, m);
    assert BatchOk(digest, s.journal, f);
    assert StillSettled(digest, s.journal, f, n);
    FindExact(s.journal, f.b.commands[n].id);
    if f.b.commands[n].clientSequence <= f.mark {
      TooLowIsHeld(digest, batches, s, device, p, n);
    }
  }

  lemma OldSources(digest: Digest, s: System, ev: Event, x: nat, p: nat, i: nat)
    requires OfflineRaces.Inv(digest, s) && SourceOf(Step(digest, s, ev), x, p, i) && x < |s.journal|
    ensures SourceOf(s, x, p, i)
  {
    if ev.Insert? && ev.pid == p && p in s.batches && s.batches[p].pending.Some? {
      FindExact(s.journal, s.batches[p].pending.value.commandId);
      assert s.journal[x] in s.journal;
    }
  }

  lemma SourcesStay(digest: Digest, s: System, ev: Event, x: nat, p: nat, i: nat)
    requires SourceOf(s, x, p, i)
    ensures SourceOf(Step(digest, s, ev), x, p, i)
  {
  }

  lemma NewSource(digest: Digest, s: System, ev: Event)
    requires |s.journal| < |Step(digest, s, ev).journal|
    ensures ev.Insert? && ev.pid in s.batches && s.batches[ev.pid].pending.Some?
    ensures |Step(digest, s, ev).journal| == |s.journal| + 1
    ensures SourceOf(Step(digest, s, ev), |s.journal|, ev.pid, |s.batches[ev.pid].verdicts|)
  {
    var f := s.batches[ev.pid];
    assert Step(digest, s, ev).batches[ev.pid].verdicts[|f.verdicts|].Inserted?;
  }

  /** The newest entry comes from the command its batch has just dealt with. */
  lemma NewestSource(digest: Digest, s: System, ev: Event, p: nat, i: nat)
    requires OfflineRaces.Inv(digest, s) && SourceOf(Step(digest, s, ev), |s.journal|, p, i)
    ensures ev == Insert(p) && p in s.batches && i == |s.batches[p].verdicts| && s.batches[p].pending.Some?
    ensures Find(s.journal, s.batches[p].pending.value.commandId).None?
  {
    NewSource(digest, s, ev);
    if p in s.batches && i < |s.batches[p].verdicts| {
      assert BatchOk(digest, s.journal, s.batches[p]);
      assert StillSettled(digest, s.journal, s.batches[p], i);
      FindExact(s.journal, s.batches[p].b.commands[i].id);
      FindExact(s.journal, s.batches[ev.pid].pending.value.commandId);
    }
  }

  lemma HeldStays(j: Journal, longer: Journal, x: nat, id: string)
    requires j <= longer && x <= |j| && HeldBefore(j, x, id)
    ensures HeldBefore(longer, x, id)
  {
  }

  lemma ClaimsStayHeld(s: System, after: System, x: nat, p: nat, i: nat)
    requires SourceOf(after, x, p, i) && i <= |after.batches[p].b.commands|
    requires x <= |s.journal| && s.journal <= after.journal
    requires forall m | 0 <= m < i && Candidate(after.batches[p].b, m) ::
               HeldBefore(s.journal, x, after.batches[p].b.commands[m].id)
    ensures ClaimsHeld(after, x, p, i)
  {
    forall m | 0 <= m < i && Candidate(after.batches[p].b, m)
      ensures HeldBefore(after.journal, x, after.batches[p].b.commands[m].id)
    {
      HeldStays(s.journal, after.journal, x, after.batches[p].b.commands[m].id);
    }
  }

  lemma OldSourceStaysFirst(digest: Digest, s: System, ev: Event, x: nat, p: nat, i: nat)
    requires OfflineRaces.Inv(digest, s) && SourceOf(Step(digest, s, ev), x, p, i) && x < |s.journal|
    requires SourceOf(s, x, p, i) && SourceIsFirst(s, x, p, i)
    ensures SourceIsFirst(Step(digest, s, ev), x, p, i)
  {
    BatchesStay(digest, s, ev, p);
    ClaimsStayHeld(s, Step(digest, s, ev), x, p, i);
  }

  /** The newest entry is the first of its id in its batch, and all its batch would have inserted before
      stands. */
  lemma NewSourceIsFirst(digest: Digest, batches: Batches, s: System, device: string, p: nat)
    requires Tracked(digest, batches, s, device) && InOrder(batches, device)
    requires p in s.batches && s.batches[p].b.deviceId == device && s.batches[p].pending.Some?
    requires Find(s.journal, s.batches[p].pending.value.commandId).None?
    ensures var (f, i) := (s.batches[p], |s.batches[p].verdicts|);
            && i < |f.b.commands| && First(f.b, i)
            && forall m | 0 <= m < i && Candidate(f.b, m) :: HeldBefore(s.journal, |s.journal|, f.b.commands[m].id)
  {
    var f := s.batches[p];
    assert BatchOk(digest, s.journal, f);
    FindExact(s.journal, f.pending.value.commandId);
    forall m | 0 <= m < |f.verdicts| && Candidate(f.b, m)
      ensures HeldBefore(s.journal, |s.journal|, f.b.commands[m].id)
    {
      CandidateIsHeld(digest, batches, s, device, p, m);
    }
  }

  lemma SourcesStayFirst(digest: Digest, batches: Batches, s: System, ev: Event, device: string, x: nat, p: nat, i: nat)
    requires Tracked(digest, batches, s, device) && InOrder(batches, device)
    requires SourceOf(Step(digest, s, ev), x, p, i) && Step(digest, s, ev).batches[p].b.deviceId == device
    ensures SourceIsFirst(Step(digest, s, ev), x, p, i)
  {
    if x < |s.journal| {
      OldSources(digest, s, ev, x, p, i);
      BatchesStay(digest, s, ev, p);
      OldSourceStaysFirst(digest, s, ev, x, p, i);
    } else {
      NewSource(digest, s, ev);
      NewestSource(digest, s, ev, p, i);
      BatchesStay(digest, s, ev, p);
      NewSourceIsFirst(digest, batches, s, device, p);
      ClaimsStayHeld(s, Step(digest, s, ev), x, p, i);
    }
  }

  lemma MarksStayHeld(digest: Digest, s: System, ev: Event, p: nat)
    requires p in Step(digest, s, ev).batches && (p in s.batches ==> MarkHeld(s.journal, s.batches[p]))
    ensures MarkHeld(Step(digest, s, ev).journal, Step(digest, s, ev).batches[p])
  {
    if p in s.batches {
      BatchesStay(digest, s, ev, p);
      if s.batches[p].mark != -1 {
        var y: nat :| y < |s.journal| && s.journal[y].deviceId == s.batches[p].b.deviceId
                      && s.journal[y].clientSequence == s.batches[p].mark;
        assert Step(digest, s, ev).journal[y] == s.journal[y];
      }
    } else {
      HighWaterExact(s.journal, ev.b.deviceId);
    }
  }

  lemma StepKeepsBatches(digest: Digest, batches: Batches, s: System, ev: Event)
    requires BatchesKnown(batches, s) && Among(batches, ev)
    ensures BatchesKnown(batches, Step(digest, s, ev))
  {
    var after := Step(digest, s, ev);
    forall p | p in after.batches
      ensures p in batches && batches[p] == after.batches[p].b && MarkHeld(after.journal, after.batches[p])
    {
      MarksStayHeld(digest, s, ev, p);
      if p in s.batches {
        BatchesStay(digest, s, ev, p);
      }
    }
  }

  lemma StepKeepsSources(digest: Digest, s: System, ev: Event)
    requires AllSourced(s)
    ensures AllSourced(Step(digest, s, ev))
  {
    var after := Step(digest, s, ev);
    forall x: nat | x < |after.journal| ensures HasSource(after, x) {
      if x < |s.journal| {
        assert HasSource(s, x);
        var p: nat, i: nat :| SourceOf(s, x, p, i);
        SourcesStay(digest, s, ev, x, p, i);
      } else {
        NewSource(digest, s, ev);
      }
    }
  }

  lemma StepStaysTracked(digest: Digest, batches: Batches, s: System, ev: Event, device: string)
    requires Tracked(digest, batches, s, device) && InOrder(batches, device) && Among(batches, ev)
    ensures Tracked(digest, batches, Step(digest, s, ev), device)
  {
    var after := Step(digest, s, ev);
    OfflineRaces.StepKeepsInv(digest, s, ev);
    StepKeepsBatches(digest, batches, s, ev);
    StepKeepsSources(digest, s, ev);
    forall x: nat, p: nat, i: nat | SourceOf(after, x, p, i) && after.batches[p].b.deviceId == device
      ensures SourceIsFirst(after, x, p, i)
    {
      SourcesStayFirst(digest, batches, s, ev, device, x, p, i);
    }
  }

  lemma StepKeepsBatchOrder(digest: Digest, s: System, ev: Event)
    requires OfflineRaces.Inv(digest, s) && SameBatchInOrder(s)
    ensures SameBatchInOrder(Step(digest, s, ev))
  {
    var after := Step(digest, s, ev);
    forall x: nat, y: nat, p: nat, i: nat, k: nat | SourceOf(after, x, p, i) && SourceOf(after, y, p, k) && x < y
      ensures i < k
    {
      if y == |s.journal| {
        NewestSource(digest, s, ev, p, k);
      } else if y < |s.journal| {
        OldSources(digest, s, ev, y, p, k);
      } else {
        NewSource(digest, s, ev);
      }
      OldSources(digest, s, ev, x, p, i);
    }
  }

  lemma {:induction false} RacesStayTracked(digest: Digest, batches: Batches, events: seq<Event>, device: string)
    requires AllAmong(batches, events) && InOrder(batches, device)
    ensures Tracked(digest, batches, Race(digest, events), device) && SameBatchInOrder(Race(digest, events))
  {
    if events != [] {
      var init, ev := events[..|events| - 1], events[|events| - 1];
      RacesStayTracked(digest, batches, init, device);
      assert Among(batches, ev);
      StepStaysTracked(digest, batches, Race(digest, init), ev, device);
      StepKeepsBatchOrder(digest, Race(digest, init), ev);
    }
  }

  // ---- batches out of order can break it

  ghost predicate RunTo(digest: Digest, batches: Batches, events: seq<Event>, s: System) {
    AllAmong(batches, events) && Race(digest, events) == s
  }

  /** Some interleaving of the batches leads here. */
  ghost predicate Reachable(digest: Digest, batches: Batches, s: System) {
    exists events :: RunTo(digest, batches, events, s)
  }

  lemma StepIsReachable(digest: Digest, batches: Batches, s: System, ev: Event)
    requires Reachable(digest, batches, s) && Among(batches, ev)
    ensures Reachable(digest, batches, Step(digest, s, ev))
  {
    var events :| RunTo(digest, batches, events, s);
    assert (events + [ev])[..|events|] == events;
    assert RunTo(digest, batches, events + [ev], Step(digest, s, ev));
  }

  lemma Begins(digest: Digest, batches: Batches, s: System, p: nat) returns (after: System)
    requires Reachable(digest, batches, s) && p in batches && p !in s.batches && s.journal == []
    ensures Reachable(digest, batches, after)
    ensures after == System([], s.batches[p := InFlight(batches[p], -1, [], None)])
  {
    StepIsReachable(digest, batches, s, Begin(p, batches[p]));
    after := Step(digest, s, Begin(p, batches[p]));
  }

  /** Batch p has dealt with n commands and has nothing pending, and read the mark of an empty journal. */
  predicate Rests(batches: Batches, s: System, p: nat, n: nat) {
    && p in batches && p in s.batches
    && s.batches[p] == InFlight(batches[p], -1, s.batches[p].verdicts, None) && |s.batches[p].verdicts| == n
  }

  predicate OthersAsBefore(s: System, after: System, p: nat) {
    s.batches.Keys == after.batches.Keys && forall q | q in s.batches && q != p :: after.batches[q] == s.batches[q]
  }

  /** One command: a candidate with a new id is inserted, and nothing else is. */
  lemma TakesTurn(digest: Digest, batches: Batches, s: System, p: nat, n: nat) returns (after: System)
    requires Reachable(digest, batches, s) && Rests(batches, s, p, n) && n < |batches[p].commands|
    ensures Reachable(digest, batches, after) && Rests(batches, after, p, n + 1)
    ensures OthersAsBefore(s, after, p)
    ensures var c := batches[p].commands[n];
            after.journal == s.journal + if Candidate(batches[p], n) && Find(s.journal, c.id).None?
                                         then [NewEntry(digest, batches[p], c)] else []
    ensures s.journal <= after.journal && |after.journal| <= |s.journal| + 1
    ensures |s.journal| < |after.journal| ==>
              Candidate(batches[p], n) && after.journal[|s.journal|].commandId == batches[p].commands[n].id
  {
    StepIsReachable(digest, batches, s, LookUp(p));
    var s1 := Step(digest, s, LookUp(p));
    StepIsReachable(digest, batches, s1, Insert(p));
    after := Step(digest, s1, Insert(p));
    var v := Judge(digest, batches[p], -1, s.journal, batches[p].commands[n], FaultAt(batches[p], n));
    if v.Inserted? {
      assert s1.batches[p] == s.batches[p].(pending := Some(v.entry));
    } else {
      assert s1.batches[p] == Settled(s.batches[p], v);
    }
  }

  /** New entries carry ids the batch claims. */
  predicate OnlyClaimed(b: Batch, n: nat, j: Journal, longer: Journal)
    requires n <= |b.commands|
  {
    j <= longer && forall x | |j| <= x < |longer| :: Claimed(b, n, longer[x].commandId)
  }

  lemma {:induction false} TakesTurns(digest: Digest, batches: Batches, s: System, p: nat, m: nat, n: nat)
    returns (after: System)
    requires Reachable(digest, batches, s) && Rests(batches, s, p, m) && m <= n <= |batches[p].commands|
    ensures Reachable(digest, batches, after) && Rests(batches, after, p, n)
    ensures OthersAsBefore(s, after, p) && OnlyClaimed(batches[p], n, s.journal, after.journal)
    decreases n - m
  {
    if m == n {
      after := s;
    } else {
      var s1 := TakesTurns(digest, batches, s, p, m, n - 1);
      after := TakesTurn(digest, batches, s1, p, n - 1);
      ClaimedByMore(batches[p], n - 1, s.journal, s1.journal, after.journal);
      assert OthersAsBefore(s, after, p);
    }
  }

  lemma ClaimedByMore(b: Batch, n: nat, j: Journal, before: Journal, after: Journal)
    requires n < |b.commands| && OnlyClaimed(b, n, j, before) && before <= after && |after| <= |before| + 1
    requires |after| > |before| ==> Candidate(b, n) && after[|before|].commandId == b.commands[n].id
    ensures OnlyClaimed(b, n + 1, j, after)
  {
    forall x | |j| <= x < |after| ensures Claimed(b, n + 1, after[x].commandId) {
      if x < |before| {
        assert Claimed(b, n, before[x].commandId);
      }
    }
  }

  /** Command i of the batch is inserted when its turn comes. */
  lemma InsertsCommand(digest: Digest, batches: Batches, s: System, p: nat, m: nat, i: nat) returns (after: System)
    requires Reachable(digest, batches, s) && Rests(batches, s, p, m) && m <= i < |batches[p].commands|
    requires First(batches[p], i)
    requires forall x | 0 <= x < |s.journal| :: s.journal[x].commandId != batches[p].commands[i].id
    ensures Reachable(digest, batches, after) && Rests(batches, after, p, i + 1)
    ensures OthersAsBefore(s, after, p) && OnlyClaimed(batches[p], i + 1, s.journal, after.journal)
    ensures after.journal != []
    ensures after.journal[|after.journal| - 1] == NewEntry(digest, batches[p], batches[p].commands[i])
    ensures |s.journal| < |after.journal|
  {
    var s1 := TakesTurns(digest, batches, s, p, m, i);
    FindExact(s1.journal, batches[p].commands[i].id);
    after := TakesTurn(digest, batches, s1, p, i);
    ClaimedByMore(batches[p], i, s.journal, s1.journal, after.journal);
  }

  lemma NotYetInserted(b: Batch, i: nat, j: Journal, id: string)
    requires i < |b.commands| && OnlyClaimed(b, i + 1, [], j) && b.commands[i].id != id && !Claimed(b, i, id)
    ensures forall y | 0 <= y < |j| :: j[y].commandId != id
  {
    forall y | 0 <= y < |j| ensures j[y].commandId != id {
      assert Claimed(b, i + 1, j[y].commandId);
    }
  }

  /** Both batches have read the empty journal, and the first has just inserted its command. */
  lemma FirstInserts(digest: Digest, batches: Batches, device: string, p: nat, i: nat, q: nat, k: nat)
    returns (s: System)
    requires CanPrecede(batches, device, p, i, q, k)
    ensures Reachable(digest, batches, s) && Rests(batches, s, q, if p == q then i + 1 else 0)
    ensures s.journal != [] && s.journal[|s.journal| - 1] == NewEntry(digest, batches[p], batches[p].commands[i])
    ensures OnlyClaimed(batches[p], i + 1, [], s.journal)
  {
    assert RunTo(digest, batches, [], System([], map[]));
    s := Begins(digest, batches, System([], map[]), p);
    if p != q {
      s := Begins(digest, batches, s, q);
    }
    s := InsertsCommand(digest, batches, s, p, 0, i);
  }

  lemma CommandsMeet(digest: Digest, batches: Batches, device: string, p: nat, i: nat, q: nat, k: nat)
    returns (s: System)
    requires CanPrecede(batches, device, p, i, q, k)
    requires batches[p].commands[i].clientSequence >= batches[q].commands[k].clientSequence
    ensures Reachable(digest, batches, s) && !Ordered(s.journal, device)
  {
    s := FirstInserts(digest, batches, device, p, i, q, k);
    var x := |s.journal| - 1;
    var first := s.journal[x];
    NotYetInserted(batches[p], i, s.journal, batches[q].commands[k].id);
    s := InsertsCommand(digest, batches, s, q, if p == q then i + 1 else 0, k);
    assert s.journal[x] == first;
    assert s.journal[|s.journal| - 1].clientSequence <= s.journal[x].clientSequence;
  }

  /** The batches of any devices, each begun at any moment and interleaved in any way: the device's entries
      are always in order exactly when whatever can be inserted before another command has a lower
      sequence. In particular two batches that each bring a new command can break the order, whichever
      sequences they carry, as soon as they overlap. */
  lemma AlwaysOrderedIff(digest: Digest, batches: Batches, device: string)
    ensures (forall s | Reachable(digest, batches, s) :: Ordered(s.journal, device)) <==> InOrder(batches, device)
  {
    if InOrder(batches, device) {
      forall s | Reachable(digest, batches, s) ensures Ordered(s.journal, device) {
        var events :| RunTo(digest, batches, events, s);
        RacesStayTracked(digest, batches, events, device);
        TrackedIsOrdered(digest, batches, s, device);
      }
    } else {
      var p: nat, i: nat, q: nat, k: nat :| CanPrecede(batches, device, p, i, q, k)
        && batches[p].commands[i].clientSequence >= batches[q].commands[k].clientSequence;
      var s := CommandsMeet(digest, batches, device, p, i, q, k);
    }
  }

  /** Two batches of one new command each: once begun on one journal, either may be inserted first. */
  lemma TwoCommandsNeverOrdered(digest: Digest, device: string, b: Batch, c: Batch)
    requires b.deviceId == device && c.deviceId == device && |b.commands| == 1 && |c.commands| == 1
    requires Candidate(b, 0) && Candidate(c, 0) && b.commands[0].id != c.commands[0].id
    ensures !(forall s | Reachable(digest, map[0 := b, 1 := c], s) :: Ordered(s.journal, device))
  {
    var batches: Batches := map[0 := b, 1 := c];
    assert CanPrecede(batches, device, 0, 0, 1, 0) && CanPrecede(batches, device, 1, 0, 0, 0);
    AlwaysOrderedIff(digest, batches, device);
  }
}
