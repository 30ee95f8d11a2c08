/** The offline command journal: idempotent, device-sequenced batches
    (backend/api/offline_sync_api.py). */
module OfflineSync {
  import opened Common

  // ---------------------------------------------------------------- data

  /** Fields the journal copies from a command without looking at them. */
  datatype Context = Context(
    masterSessionId: Option<string>,
    locationSessionId: Option<string>,
    itemCode: Option<string>,
    commandType: string,
    createdAt: int,
    retryCount: int,
    lastError: Option<string>)

  datatype Command = Command(
    id: string,
    clientSequence: int,
    payload: map<string, string>,
    payloadHash: string,
    state: string,
    context: Context)

  datatype JournalEntry = JournalEntry(
    commandId: string,
    deviceId: string,
    clientSequence: int,
    actorId: string,
    payload: map<string, string>,
    payloadHash: string,
    state: string,
    context: Context)

  type Journal = seq<JournalEntry>

  datatype Ack = Ack(commandId: string, state: string, lastError: string)

  datatype Reason = SecurityConflict | SequenceTooLow | BlockedPolicy | InternalError

  datatype Rejection = Rejection(commandId: string, reason: Reason)

  /** What goes wrong while one command is handled: the lookup, the insert, or the activity log
      after a committed insert. */
  datatype Fault = NoFault | LookupFails | InsertFails | ActivityLogFails

  datatype Batch = Batch(deviceId: string, actorId: string, role: string, commands: seq<Command>, faults: seq<Fault>)

  datatype Response = Response(accepted: seq<Ack>, rejected: seq<Rejection>, acks: map<string, Ack>)

  /** The payload digest, as a function of the payload. */
  type Digest = map<string, string> -> string

  /** The keys a staff payload must not carry. */
  predicate HasApprovalFields(payload: map<string, string>) {
    "approved_by" in payload || "approved_at" in payload || "locked" in payload || "locked_by" in payload
  }

  function FaultAt(b: Batch, i: nat): Fault {
    if i < |b.faults| then b.faults[i] else NoFault
  }

  /** No lookup or insert of the batch fails; the activity log may. */
  predicate NoWriteFails(b: Batch) {
    forall i: nat | i < |b.commands| :: FaultAt(b, i) in {NoFault, ActivityLogFails}
  }

  // ---------------------------------------------------------------- the journal as a collection

  /** `find_one({"command_id": id})`. */
  function Find(j: Journal, id: string): Option<JournalEntry> {
    if j == [] then None
    else if j[0].commandId == id then Some(j[0])
    else Find(j[1..], id)
  }

  /** The largest client sequence the journal holds for a device, -1 when it holds none. */
  function HighWater(j: Journal, device: string): int {
    if j == [] then -1
    else
      var last, rest := j[|j| - 1], HighWater(j[..|j| - 1], device);
      if last.deviceId == device && (rest < last.clientSequence || NoneOf(j[..|j| - 1], device))
      then last.clientSequence else rest
  }

  predicate NoneOf(j: Journal, device: string) {
    forall i | 0 <= i < |j| :: j[i].deviceId != device
  }

  predicate UniqueIds(j: Journal) {
    forall i, k | 0 <= i < k < |j| :: j[i].commandId != j[k].commandId
  }

  // ---------------------------------------------------------------- one command

  datatype Verdict =
    | Duplicate(state: string)                            // acknowledged with the stored state
    | Conflict                                            // same id, other payload hash
    | Refused(reason: Reason)
    | Inserted(entry: JournalEntry, alsoRefused: bool)    // also refused when the activity log fails

  function NewEntry(digest: Digest, b: Batch, c: Command): JournalEntry {
    JournalEntry(
      c.id, b.deviceId, c.clientSequence, b.actorId, c.payload,
      if c.payloadHash != "" then c.payloadHash else digest(c.payload),
      c.state, c.context)
  }

  /** How the rules settle one command, given the mark read when the batch started. */
  function Judge(digest: Digest, b: Batch, mark: int, j: Journal, c: Command, fault: Fault): Verdict {
    if fault == LookupFails then Refused(InternalError)
    else
      match Find(j, c.id)
      case Some(existing) =>
        if existing.payloadHash == c.payloadHash then Duplicate(existing.state) else Conflict
      case None =>
        if c.clientSequence <= mark then Refused(SequenceTooLow)
        else if b.role == "staff" && HasApprovalFields(c.payload) then Refused(BlockedPolicy)
        else if fault == InsertFails then Refused(InternalError)
        else Inserted(NewEntry(digest, b, c), fault == ActivityLogFails)
  }

  /** The acknowledgement an accepted command gets. */
  function AckOf(c: Command, v: Verdict): Option<Ack> {
    match v
    case Duplicate(state) => Some(Ack(c.id, state, ""))
    case Inserted(_, _) => Some(Ack(c.id, c.state, ""))
    case _ => None
  }

  function RejectionOf(c: Command, v: Verdict): Option<Rejection> {
    match v
    case Duplicate(_) => None
    case Conflict => Some(Rejection(c.id, SecurityConflict))
    case Refused(reason) => Some(Rejection(c.id, reason))
    case Inserted(_, alsoRefused) => if alsoRefused then Some(Rejection(c.id, InternalError)) else None
  }

  function Appended<T>(s: seq<T>, o: Option<T>): seq<T> {
    if o.Some? then s + [o.value] else s
  }

  function WithAck(acks: map<string, Ack>, c: Command, v: Verdict): map<string, Ack> {
    if v.Conflict? then acks[c.id := Ack(c.id, "CONFLICT", "payload_hash_mismatch")]
    else if AckOf(c, v).Some? then acks[c.id := AckOf(c, v).value]
    else acks
  }

  /** The journal once the first n commands of a batch have been handled. */
  function JournalAfter(digest: Digest, b: Batch, j: Journal, n: nat): Journal
    requires n <= |b.commands|
    decreases n, 0
  {
    if n == 0 then j
    else
      var v := VerdictAt(digest, b, j, n - 1);
      JournalAfter(digest, b, j, n - 1) + if v.Inserted? then [v.entry] else []
  }

  /** How command i of a batch is settled. */
  function VerdictAt(digest: Digest, b: Batch, j: Journal, i: nat): Verdict
    requires i < |b.commands|
    decreases i, 1
  {
    Judge(digest, b, HighWater(j, b.deviceId), JournalAfter(digest, b, j, i), b.commands[i], FaultAt(b, i))
  }

  function AckAt(digest: Digest, b: Batch, j: Journal, i: nat): Option<Ack>
    requires i < |b.commands|
  {
    AckOf(b.commands[i], VerdictAt(digest, b, j, i))
  }

  function Next(r: Response, c: Command, v: Verdict): Response {
    Response(Appended(r.accepted, AckOf(c, v)), Appended(r.rejected, RejectionOf(c, v)), WithAck(r.acks, c, v))
  }

  function Verdicts(digest: Digest, b: Batch, j: Journal, n: nat): (vs: seq<Verdict>)
    requires n <= |b.commands|
    ensures |vs| == n
  {
    if n == 0 then [] else Verdicts(digest, b, j, n - 1) + [VerdictAt(digest, b, j, n - 1)]
  }

  /** The response that reports these verdicts, command by command. */
  function Respond(cs: seq<Command>, vs: seq<Verdict>): Response
    requires |cs| == |vs|
  {
    if cs == [] then Response([], [], map[])
    else Next(Respond(cs[..|cs| - 1], vs[..|vs| - 1]), cs[|cs| - 1], vs[|vs| - 1])
  }

  /** The journal after a whole batch. */
  function Sync(digest: Digest, b: Batch, j: Journal): Journal {
    JournalAfter(digest, b, j, |b.commands|)
  }

  lemma RespondSnoc(cs: seq<Command>, c: Command, vs: seq<Verdict>, v: Verdict)
    requires |cs| == |vs|
    ensures Respond(cs + [c], vs + [v]) == Next(Respond(cs, vs), c, v)
  {
    assert (cs + [c])[..|cs|] == cs && (vs + [v])[..|vs|] == vs;
  }

  // ---------------------------------------------------------------- the endpoint

  class CommandJournal {
    var entries: Journal

    constructor ()
      ensures entries == []
    {
      entries := [];
    }

    /** The body of the loop: look the command up, apply the rules, insert it if it is new. */
    method Handle(digest: Digest, b: Batch, lastProcessed: int, c: Command, fault: Fault) returns (v: Verdict)
      modifies this
      ensures v == Judge(digest, b, lastProcessed, old(entries), c, fault)
      ensures entries == old(entries) + if v.Inserted? then [v.entry] else []
    {
      if fault == LookupFails {
        return Refused(InternalError);
      }
      var existing := Find(entries, c.id);
      if existing.Some? {
        if existing.value.payloadHash == c.payloadHash {
          return Duplicate(existing.value.state);
        }
        return Conflict;
      }
      if c.clientSequence <= lastProcessed {
        return Refused(SequenceTooLow);
      }
      if b.role == "staff" && HasApprovalFields(c.payload) {
        return Refused(BlockedPolicy);
      }
      if fault == InsertFails {
        return Refused(InternalError);
      }
      var entry := NewEntry(digest, b, c);
      entries := entries + [entry];
      v := Inserted(entry, fault == ActivityLogFails);
    }

    /** `sync_commands`. */
    method SyncCommands(digest: Digest, b: Batch)
      returns (accepted: seq<Ack>, rejected: seq<Rejection>, acks: map<string, Ack>)
      modifies this
      ensures entries == Sync(digest, b, old(entries))
      ensures Response(accepted, rejected, acks)
              == Respond(b.commands, Verdicts(digest, b, old(entries), |b.commands|))
    {
      accepted, rejected, acks := [], [], map[];
      var lastProcessed := HighWater(entries, b.deviceId);
      for i := 0 to |b.commands|
        invariant entries == JournalAfter(digest, b, old(entries), i)
        invariant Response(accepted, rejected, acks) == Respond(b.commands[..i], Verdicts(digest, b, old(entries), i))
      {
        var c := b.commands[i];
        var v := Handle(digest, b, lastProcessed, c, FaultAt(b, i));
        RespondSnoc(b.commands[..i], c, Verdicts(digest, b, old(entries), i), v);
        assert b.commands[..i + 1] == b.commands[..i] + [c];
        accepted := Appended(accepted, AckOf(c, v));
        rejected := Appended(rejected, RejectionOf(c, v));
        acks := WithAck(acks, c, v);
      }
      assert b.commands[..|b.commands|] == b.commands;
    }
  }

  // ---------------------------------------------------------------- lookups

  lemma {:induction false} FindExact(j: Journal, id: string)
    ensures Find(j, id).Some? <==> exists i | 0 <= i < |j| :: j[i].commandId == id
    ensures Find(j, id).Some? ==> Find(j, id).value in j && Find(j, id).value.commandId == id
  {
    if j != [] && j[0].commandId != id {
      FindExact(j[1..], id);
      if Find(j, id).Some? {
        var i :| 0 <= i < |j[1..]| && j[1..][i].commandId == id;
        assert j[i + 1].commandId == id;
      }
      forall i | 0 <= i < |j| && j[i].commandId == id ensures Find(j, id).Some? {
        assert j[1..][i - 1].commandId == id;
      }
    }
  }

  /** A found entry stays the found entry as the journal grows. */
  lemma {:induction false} FindStable(j: Journal, longer: Journal, id: string)
    requires j <= longer && Find(j, id).Some?
    ensures Find(longer, id) == Find(j, id)
  {
    if j[0].commandId != id {
      FindStable(j[1..], longer[1..], id);
    }
  }

  lemma {:induction false} FindAppended(j: Journal, e: JournalEntry)
    requires Find(j, e.commandId).None?
    ensures Find(j + [e], e.commandId) == Some(e)
  {
    if j != [] {
      assert (j + [e])[1..] == j[1..] + [e];
      FindAppended(j[1..], e);
    }
  }

  /** The mark is the least bound on the device's sequences, or -1. */
  lemma {:induction false} HighWaterExact(j: Journal, device: string)
    ensures forall i | 0 <= i < |j| && j[i].deviceId == device :: j[i].clientSequence <= HighWater(j, device)
    ensures if NoneOf(j, device) then HighWater(j, device) == -1
            else exists i | 0 <= i < |j| :: j[i].deviceId == device && j[i].clientSequence == HighWater(j, device)
  {
    if j != [] {
      var init := j[..|j| - 1];
      HighWaterExact(init, device);
      if !NoneOf(init, device) {
        var i :| 0 <= i < |init| && init[i].deviceId == device && init[i].clientSequence == HighWater(init, device);
        assert j[i] == init[i];
      }
    }
  }

  /** On an extension whose new entries of the device all lie above the mark, the mark only rises. */
  lemma {:induction false} HighWaterMonotone(j: Journal, longer: Journal, device: string)
    requires j <= longer
    requires forall i | |j| <= i < |longer| && longer[i].deviceId == device ::
               HighWater(j, device) < longer[i].clientSequence
    ensures HighWater(j, device) <= HighWater(longer, device)
    ensures HighWater(j, device) < HighWater(longer, device)
            <==> exists i | |j| <= i < |longer| :: longer[i].deviceId == device
  {
    if |j| == |longer| {
      assert j == longer;
    } else {
      var init := longer[..|longer| - 1];
      HighWaterMonotone(j, init, device);
      forall i | |j| <= i < |init| && init[i].deviceId == device ensures longer[i].deviceId == device {
      }
      HighWaterExact(init, device);
      if longer[|longer| - 1].deviceId != device {
        assert forall i | |j| <= i < |longer| && longer[i].deviceId == device :: init[i].deviceId == device;
      }
    }
  }

  // ---------------------------------------------------------------- what a batch does to the journal

  /** The entry says of the command what the device sent, and who sent it; a missing hash is computed. */
  predicate Carries(digest: Digest, e: JournalEntry, b: Batch, c: Command) {
    && e.commandId == c.id
    && e.clientSequence == c.clientSequence
    && e.payload == c.payload
    && e.payloadHash == (if c.payloadHash == "" then digest(c.payload) else c.payloadHash)
    && e.state == c.state
    && e.context == c.context
    && e.deviceId == b.deviceId
    && e.actorId == b.actorId
  }

  /** The entry was inserted by this batch: it carries one of its commands, for its device, above
      the mark. */
  ghost predicate InsertedBy(digest: Digest, b: Batch, mark: int, e: JournalEntry) {
    exists i | 0 <= i < |b.commands| :: Carries(digest, e, b, b.commands[i]) && mark < b.commands[i].clientSequence
  }

  /** What one verdict can insert. */
  lemma InsertionFacts(digest: Digest, b: Batch, mark: int, j: Journal, c: Command, fault: Fault)
    ensures var v := Judge(digest, b, mark, j, c, fault);
            v.Inserted? ==>
              && v.entry == NewEntry(digest, b, c) && Carries(digest, v.entry, b, c) && mark < c.clientSequence
              && forall i | 0 <= i < |j| :: j[i].commandId != c.id
  {
    FindExact(j, c.id);
  }

  lemma {:induction false} GrowsByInsertions(digest: Digest, b: Batch, j: Journal, n: nat)
    requires n <= |b.commands| && UniqueIds(j)
    ensures var grown := JournalAfter(digest, b, j, n);
            && j <= grown
            && UniqueIds(grown)
            && forall k | |j| <= k < |grown| :: InsertedBy(digest, b, HighWater(j, b.deviceId), grown[k])
  {
    if n > 0 {
      GrowsByInsertions(digest, b, j, n - 1);
      InsertionFacts(digest, b, HighWater(j, b.deviceId), JournalAfter(digest, b, j, n - 1),
                     b.commands[n - 1], FaultAt(b, n - 1));
    }
  }

  /** One batch, whatever fails along the way: existing entries are untouched, command ids stay
      unique, everything inserted is one of the batch's commands with a sequence above the mark at
      batch start, the device's mark never falls and rises exactly when something is inserted, and
      no other device's mark moves. */
  lemma BatchKeepsJournal(digest: Digest, b: Batch, j: Journal)
    requires UniqueIds(j)
    ensures var grown := Sync(digest, b, j);
            && j <= grown
            && UniqueIds(grown)
            && (forall k | |j| <= k < |grown| :: InsertedBy(digest, b, HighWater(j, b.deviceId), grown[k]))
            && HighWater(j, b.deviceId) <= HighWater(grown, b.deviceId)
            && (HighWater(j, b.deviceId) < HighWater(grown, b.deviceId) <==> |j| < |grown|)
            && (forall other | other != b.deviceId :: HighWater(grown, other) == HighWater(j, other))
  {
    GrowsByInsertions(digest, b, j, |b.commands|);
    var grown := Sync(digest, b, j);
    HighWaterMonotone(j, grown, b.deviceId);
    if |j| < |grown| {
      assert grown[|j|].deviceId == b.deviceId;
    }
    forall other | other != b.deviceId ensures HighWater(grown, other) == HighWater(j, other) {
      OtherDevices(j, grown, other);
    }
  }

  lemma {:induction false} OtherDevices(j: Journal, longer: Journal, device: string)
    requires j <= longer && forall k | |j| <= k < |longer| :: longer[k].deviceId != device
    ensures HighWater(longer, device) == HighWater(j, device)
  {
    if |j| == |longer| {
      assert j == longer;
    } else {
      OtherDevices(j, longer[..|longer| - 1], device);
    }
  }

  /** The journal after a history of batches. */
  function History(digest: Digest, j: Journal, batches: seq<Batch>): Journal {
    if batches == [] then j
    else Sync(digest, batches[|batches| - 1], History(digest, j, batches[..|batches| - 1]))
  }

  predicate Hashed(j: Journal) {
    forall i | 0 <= i < |j| :: j[i].payloadHash != ""
  }

  ghost predicate DigestsNonEmpty(digest: Digest) {
    forall p: map<string, string> :: digest(p) != ""
  }

  lemma {:induction false} StaysHashed(digest: Digest, b: Batch, j: Journal, n: nat)
    requires n <= |b.commands| && Hashed(j) && DigestsNonEmpty(digest)
    ensures Hashed(JournalAfter(digest, b, j, n))
  {
    if n > 0 {
      StaysHashed(digest, b, j, n - 1);
    }
  }

  /** Over every history of batches, from any journal with unique ids and no empty hash: both stay
      so, nothing recorded ever changes, and no device's mark ever falls. */
  lemma {:induction false} JournalOnlyGrows(digest: Digest, j: Journal, batches: seq<Batch>)
    requires UniqueIds(j)
    ensures var grown := History(digest, j, batches);
            && j <= grown
            && UniqueIds(grown)
            && (DigestsNonEmpty(digest) && Hashed(j) ==> Hashed(grown))
            && (forall device :: HighWater(j, device) <= HighWater(grown, device))
  {
    if batches != [] {
      var init, b := batches[..|batches| - 1], batches[|batches| - 1];
      JournalOnlyGrows(digest, j, init);
      var before := History(digest, j, init);
      BatchKeepsJournal(digest, b, before);
      if DigestsNonEmpty(digest) && Hashed(j) {
        StaysHashed(digest, b, before, |b.commands|);
      }
      forall device ensures HighWater(before, device) <= HighWater(History(digest, j, batches), device) {
        if device != b.deviceId {
          assert HighWater(History(digest, j, batches), device) == HighWater(before, device);
        }
      }
    }
  }

  // ---------------------------------------------------------------- how each command is settled

  /** The fields only supervisors may send. */
  const APPROVAL_FIELDS: set<string> := {"approved_by", "approved_at", "locked", "locked_by"}

  predicate Known(j: Journal, id: string) {
    exists i | 0 <= i < |j| :: j[i].commandId == id
  }

  /** A command in order but for policy: not seen before, above the mark, and looked up. */
  predicate Fresh(j: Journal, mark: int, c: Command, fault: Fault) {
    !Known(j, c.id) && mark < c.clientSequence && fault != LookupFails
  }

  /** How a command is settled, by what the journal holds then and the mark read when the batch began. */
  lemma VerdictTable(digest: Digest, b: Batch, mark: int, j: Journal, c: Command, fault: Fault)
    requires UniqueIds(j)
    ensures var v := Judge(digest, b, mark, j, c, fault);
            && (fault == LookupFails ==> v == Refused(InternalError))
            && (forall i | 0 <= i < |j| && fault != LookupFails && j[i].commandId == c.id ::
                  v == if j[i].payloadHash == c.payloadHash then Duplicate(j[i].state) else Conflict)
            && (!Known(j, c.id) && fault != LookupFails && c.clientSequence <= mark ==> v == Refused(SequenceTooLow))
            && (Fresh(j, mark, c, fault) ==>
                  if b.role == "staff" && exists f | f in APPROVAL_FIELDS :: f in c.payload
                  then v == Refused(BlockedPolicy)
                  else if fault == InsertFails then v == Refused(InternalError)
                  else v.Inserted? && Carries(digest, v.entry, b, c) && (v.alsoRefused <==> fault == ActivityLogFails))
  {
    FindExact(j, c.id);
    assert HasApprovalFields(c.payload) <==> exists f | f in APPROVAL_FIELDS :: f in c.payload by {
      assert "approved_by" in APPROVAL_FIELDS && "approved_at" in APPROVAL_FIELDS;
      assert "locked" in APPROVAL_FIELDS && "locked_by" in APPROVAL_FIELDS;
    }
  }

  /** The i-th fault, if there is one, befalls the i-th command and no other. */
  lemma FaultsBefall(digest: Digest, b: Batch, j: Journal, i: nat)
    requires i < |b.commands|
    ensures var (v, fault) := (VerdictAt(digest, b, j, i), if i < |b.faults| then b.faults[i] else NoFault);
            && (fault == LookupFails ==> v == Refused(InternalError))
            && (fault in {LookupFails, InsertFails} ==> !v.Inserted?)
            && (v == Refused(InternalError) ==> fault in {LookupFails, InsertFails})
            && (v.Inserted? ==> (v.alsoRefused <==> fault == ActivityLogFails))
  {
  }

  /** Nothing a staff batch inserts holds an approval field. */
  lemma StaffEntriesAreClean(digest: Digest, b: Batch, j: Journal, k: nat)
    requires b.role == "staff" && |j| <= k < |Sync(digest, b, j)|
    ensures forall f | f in {"approved_by", "approved_at", "locked", "locked_by"} :: f !in Sync(digest, b, j)[k].payload
  {
    InsertedAreEntries(digest, b, j, |b.commands|);
    assert FromCommand(digest, b, j, |b.commands|, Sync(digest, b, j)[k]);
  }

  /** What the answer to one command says. */
  predicate Answered(r: Response, c: Command, v: Verdict) {
    match v
    case Duplicate(state) => Ack(c.id, state, "") in r.accepted
    case Conflict => Rejection(c.id, SecurityConflict) in r.rejected
    case Refused(reason) => Rejection(c.id, reason) in r.rejected
    case Inserted(_, alsoRefused) =>
      Ack(c.id, c.state, "") in r.accepted && (alsoRefused ==> Rejection(c.id, InternalError) in r.rejected)
  }

  /** The acknowledgement kept under the command's id, if the verdict gives one. */
  function Acknowledged(c: Command, v: Verdict): Option<Ack> {
    match v
    case Duplicate(state) => Some(Ack(c.id, state, ""))
    case Conflict => Some(Ack(c.id, "CONFLICT", "payload_hash_mismatch"))
    case Refused(_) => None
    case Inserted(_, _) => Some(Ack(c.id, c.state, ""))
  }

  lemma AnswersStay(r: Response, c: Command, v: Verdict, d: Command, w: Verdict)
    requires Answered(r, c, v)
    ensures Answered(Next(r, d, w), c, v)
  {
    forall ack | ack in r.accepted ensures ack in Next(r, d, w).accepted {
    }
    forall rejection | rejection in r.rejected ensures rejection in Next(r, d, w).rejected {
    }
  }

  lemma NextAnswers(r: Response, c: Command, v: Verdict)
    ensures Answered(Next(r, c, v), c, v)
  {
  }

  /** Every command is answered by its verdict, and the acknowledgement kept under an id is that of the
      last command with this id that got one. */
  lemma {:induction false} ResponseTable(cs: seq<Command>, vs: seq<Verdict>, i: nat)
    requires |cs| == |vs| && i < |cs|
    ensures Answered(Respond(cs, vs), cs[i], vs[i])
    ensures Acknowledged(cs[i], vs[i]).Some?
            && (forall k | i < k < |cs| && cs[k].id == cs[i].id :: Acknowledged(cs[k], vs[k]).None?) ==>
              cs[i].id in Respond(cs, vs).acks && Respond(cs, vs).acks[cs[i].id] == Acknowledged(cs[i], vs[i]).value
    decreases |cs|
  {
    var n := |cs| - 1;
    var before := Respond(cs[..n], vs[..n]);
    if i < n {
      ResponseTable(cs[..n], vs[..n], i);
      AnswersStay(before, cs[i], vs[i], cs[n], vs[n]);
    } else {
      NextAnswers(before, cs[n], vs[n]);
    }
  }

  // ---------------------------------------------------------------- conservation

  function CommandCount(cs: seq<Command>, id: string): nat {
    if cs == [] then 0 else CommandCount(cs[..|cs| - 1], id) + if cs[|cs| - 1].id == id then 1 else 0
  }

  function AckCount(acks: seq<Ack>, id: string): nat {
    if acks == [] then 0 else AckCount(acks[..|acks| - 1], id) + if acks[|acks| - 1].commandId == id then 1 else 0
  }

  function RejectionCount(rs: seq<Rejection>, id: string): nat {
    if rs == [] then 0 else RejectionCount(rs[..|rs| - 1], id) + if rs[|rs| - 1].commandId == id then 1 else 0
  }

  /** How often a command id is answered, in either list. */
  function Answers(r: Response, id: string): nat {
    AckCount(r.accepted, id) + RejectionCount(r.rejected, id)
  }

  /** Inserted, and then also rejected because the activity log failed after the commit. */
  predicate AnsweredTwice(v: Verdict) {
    v.Inserted? && v.alsoRefused
  }

  /** How many commands of this id are answered twice. */
  function DoubledCount(cs: seq<Command>, vs: seq<Verdict>, id: string): nat
    requires |cs| == |vs|
  {
    if cs == [] then 0
    else
      DoubledCount(cs[..|cs| - 1], vs[..|vs| - 1], id) +
      if cs[|cs| - 1].id == id && AnsweredTwice(vs[|vs| - 1]) then 1 else 0
  }

  lemma AppendedCounts(acks: seq<Ack>, ack: Option<Ack>, rs: seq<Rejection>, r: Option<Rejection>, id: string)
    ensures AckCount(Appended(acks, ack), id)
            == AckCount(acks, id) + if ack.Some? && ack.value.commandId == id then 1 else 0
    ensures RejectionCount(Appended(rs, r), id)
            == RejectionCount(rs, id) + if r.Some? && r.value.commandId == id then 1 else 0
  {
    if ack.Some? {
      assert Appended(acks, ack)[..|acks|] == acks;
    }
    if r.Some? {
      assert Appended(rs, r)[..|rs|] == rs;
    }
  }

  lemma VerdictAnswers(r: Response, c: Command, v: Verdict, id: string)
    ensures Answers(Next(r, c, v), id)
            == Answers(r, id) + if c.id != id then 0 else if AnsweredTwice(v) then 2 else 1
  {
    AppendedCounts(r.accepted, AckOf(c, v), r.rejected, RejectionOf(c, v), id);
  }

  lemma {:induction false} Accounted(cs: seq<Command>, vs: seq<Verdict>, id: string)
    requires |cs| == |vs|
    ensures Answers(Respond(cs, vs), id) == CommandCount(cs, id) + DoubledCount(cs, vs, id)
  {
    if cs != [] {
      var cs0, vs0 := cs[..|cs| - 1], vs[..|vs| - 1];
      Accounted(cs0, vs0, id);
      VerdictAnswers(Respond(cs0, vs0), cs[|cs| - 1], vs[|vs| - 1], id);
    }
  }

  lemma {:induction false} DoubledCountZero(cs: seq<Command>, vs: seq<Verdict>, id: string)
    requires |cs| == |vs|
    ensures DoubledCount(cs, vs, id) == 0
            <==> forall i | 0 <= i < |cs| && cs[i].id == id :: !AnsweredTwice(vs[i])
  {
    if cs != [] {
      var cs0, vs0 := cs[..|cs| - 1], vs[..|vs| - 1];
      DoubledCountZero(cs0, vs0, id);
      assert forall i | 0 <= i < |cs0| :: cs0[i] == cs[i] && vs0[i] == vs[i];
    }
  }

  /** The command was inserted, and the activity log then failed. */
  predicate LogFailsAfterInsert(digest: Digest, b: Batch, j: Journal, i: nat)
    requires i < |b.commands|
  {
    FaultAt(b, i) == ActivityLogFails && |JournalAfter(digest, b, j, i)| < |JournalAfter(digest, b, j, i + 1)|
  }

  /** What is inserted: a command with a new id, above the mark, that policy allows and that no lookup or
      insert fault stops. */
  predicate Insertable(b: Batch, mark: int, j: Journal, c: Command, fault: Fault) {
    && Find(j, c.id).None? && mark < c.clientSequence
    && !(b.role == "staff" && HasApprovalFields(c.payload))
    && fault in {NoFault, ActivityLogFails}
  }

  lemma InsertedIffInsertable(digest: Digest, b: Batch, j: Journal, i: nat)
    requires i < |b.commands|
    ensures var before := JournalAfter(digest, b, j, i);
            |before| < |JournalAfter(digest, b, j, i + 1)|
            <==> Insertable(b, HighWater(j, b.deviceId), before, b.commands[i], FaultAt(b, i))
  {
  }

  lemma {:induction false} VerdictsAt(digest: Digest, b: Batch, j: Journal, n: nat, i: nat)
    requires i < n <= |b.commands|
    ensures Verdicts(digest, b, j, n)[i] == VerdictAt(digest, b, j, i)
    decreases n
  {
    if i < n - 1 {
      VerdictsAt(digest, b, j, n - 1, i);
    }
  }

  /** Accepted plus rejected answers every command id as often as it was sent, plus once more for
      each command whose activity log write failed after its insert; so each command is answered
      once exactly when that happened to none. */
  lemma EveryCommandAnsweredOnce(digest: Digest, b: Batch, j: Journal)
    ensures var vs := Verdicts(digest, b, j, |b.commands|);
            var r := Respond(b.commands, vs);
            && (forall id :: Answers(r, id) == CommandCount(b.commands, id) + DoubledCount(b.commands, vs, id))
            && ((forall id :: Answers(r, id) == CommandCount(b.commands, id))
                <==> forall i | 0 <= i < |b.commands| :: !LogFailsAfterInsert(digest, b, j, i))
  {
    var cs, vs := b.commands, Verdicts(digest, b, j, |b.commands|);
    var r := Respond(cs, vs);
    forall id ensures Answers(r, id) == CommandCount(cs, id) + DoubledCount(cs, vs, id) {
      Accounted(cs, vs, id);
    }
    forall i | 0 <= i < |cs| ensures LogFailsAfterInsert(digest, b, j, i) <==> AnsweredTwice(vs[i]) {
      VerdictsAt(digest, b, j, |cs|, i);
    }
    if i :| 0 <= i < |vs| && AnsweredTwice(vs[i]) {
      DoubledCountZero(cs, vs, cs[i].id);
      assert Answers(r, cs[i].id) != CommandCount(cs, cs[i].id);
    } else {
      forall id ensures Answers(r, id) == CommandCount(cs, id) {
        DoubledCountZero(cs, vs, id);
      }
    }
  }

  // ---------------------------------------------------------------- replay

  lemma {:induction false} JournalPrefix(digest: Digest, b: Batch, j: Journal, i: nat, n: nat)
    requires i <= n <= |b.commands|
    ensures JournalAfter(digest, b, j, i) <= JournalAfter(digest, b, j, n)
    decreases n
  {
    if i < n {
      JournalPrefix(digest, b, j, i, n - 1);
    }
  }

  /** Once an accepted command has been handled it is in the journal, under the hash it carried or,
      if it carried none, under the computed one, and with the acknowledged state; if it was not there
      before, the entry carries all the device sent. */
  lemma AcceptedIsStored(digest: Digest, b: Batch, j: Journal, i: nat, later: Journal)
    requires i < |b.commands| && JournalAfter(digest, b, j, i + 1) <= later
    requires AckAt(digest, b, j, i).Some?
    ensures var c := b.commands[i];
            var stored := Find(later, c.id);
            && stored.Some?
            && stored.value.state == AckAt(digest, b, j, i).value.state
            && (stored.value.payloadHash == c.payloadHash
                || (c.payloadHash == "" && stored.value.payloadHash == digest(c.payload)))
            && (stored.value in JournalAfter(digest, b, j, i) || Carries(digest, stored.value, b, c))
  {
    var c := b.commands[i];
    var before := JournalAfter(digest, b, j, i);
    if Find(before, c.id).None? {
      FindAppended(before, NewEntry(digest, b, c));
    } else {
      FindStable(before, JournalAfter(digest, b, j, i + 1), c.id);
    }
    FindStable(JournalAfter(digest, b, j, i + 1), later, c.id);
    FindExact(before, c.id);
  }

  /** An accepted command is found under its own hash later exactly when it carried one. */
  lemma StoredHashMatchesIff(digest: Digest, b: Batch, j: Journal, i: nat, later: Journal)
    requires i < |b.commands| && JournalAfter(digest, b, j, i + 1) <= later
    requires AckAt(digest, b, j, i).Some?
    requires DigestsNonEmpty(digest) && Hashed(j)
    ensures var c := b.commands[i];
            Find(later, c.id).Some? && (Find(later, c.id).value.payloadHash == c.payloadHash <==> c.payloadHash != "")
  {
    var c := b.commands[i];
    var after := JournalAfter(digest, b, j, i + 1);
    AcceptedIsStored(digest, b, j, i, after);
    FindStable(after, later, c.id);
    StaysHashed(digest, b, j, i + 1);
    FindExact(after, c.id);
  }

  /** The same commands resent by the same device under the same role, whatever fails this time. */
  predicate Resends(b: Batch, again: Batch) {
    again.deviceId == b.deviceId && again.role == b.role && again.commands == b.commands
  }

  /** A command of a synced batch is never inserted again, on any later journal. */
  lemma NeverInsertedAgain(digest: Digest, b: Batch, again: Batch, j: Journal, later: Journal, i: nat, fault: Fault)
    requires NoWriteFails(b) && Resends(b, again)
    requires Sync(digest, b, j) <= later
    requires HighWater(j, b.deviceId) <= HighWater(later, b.deviceId)
    requires i < |b.commands|
    ensures !Judge(digest, again, HighWater(later, b.deviceId), later, b.commands[i], fault).Inserted?
  {
    JournalPrefix(digest, b, j, i, |b.commands|);
    JournalPrefix(digest, b, j, i + 1, |b.commands|);
    assert FaultAt(b, i) in {NoFault, ActivityLogFails};
    match VerdictAt(digest, b, j, i)
    case Duplicate(_) => FindStable(JournalAfter(digest, b, j, i), later, b.commands[i].id);
    case Conflict => FindStable(JournalAfter(digest, b, j, i), later, b.commands[i].id);
    case Inserted(_, _) => AcceptedIsStored(digest, b, j, i, later);
    case Refused(_) =>
  }

  lemma {:induction false} ReplayInsertsNothing(digest: Digest, b: Batch, again: Batch,
                                                j: Journal, later: Journal, n: nat)
    requires NoWriteFails(b) && Resends(b, again)
    requires Sync(digest, b, j) <= later
    requires HighWater(j, b.deviceId) <= HighWater(later, b.deviceId)
    requires n <= |b.commands|
    ensures JournalAfter(digest, again, later, n) == later
  {
    if n > 0 {
      ReplayInsertsNothing(digest, b, again, j, later, n - 1);
      NeverInsertedAgain(digest, b, again, j, later, n - 1, FaultAt(again, n - 1));
    }
  }

  lemma ReplayedAck(digest: Digest, b: Batch, again: Batch, j: Journal, later: Journal, i: nat)
    requires NoWriteFails(b) && Resends(b, again)
    requires Sync(digest, b, j) <= later
    requires HighWater(j, b.deviceId) <= HighWater(later, b.deviceId)
    requires DigestsNonEmpty(digest) && Hashed(j)
    requires i < |b.commands| && AckAt(digest, b, j, i).Some? && FaultAt(again, i) != LookupFails
    ensures AckAt(digest, again, later, i) == AckAt(digest, b, j, i) <==> b.commands[i].payloadHash != ""
  {
    ReplayInsertsNothing(digest, b, again, j, later, i);
    JournalPrefix(digest, b, j, i + 1, |b.commands|);
    AcceptedIsStored(digest, b, j, i, later);
    StoredHashMatchesIff(digest, b, j, i, later);
  }

  /** Replay safety over whole histories. After any past, a batch is synced without a failed write;
      after any further batches of any devices, it is resent under the same role. The resend inserts
      nothing whatever fails this time, and an accepted command that can be looked up gets the same
      acknowledgement again exactly when it carried a payload hash. */
  lemma ReplayIsSafe(digest: Digest, past: seq<Batch>, b: Batch, future: seq<Batch>, again: Batch)
    requires DigestsNonEmpty(digest) && NoWriteFails(b) && Resends(b, again)
    ensures var j := History(digest, [], past);
            var later := History(digest, Sync(digest, b, j), future);
            && Sync(digest, again, later) == later
            && forall i: nat | i < |b.commands| && AckAt(digest, b, j, i).Some? && FaultAt(again, i) != LookupFails ::
                 AckAt(digest, again, later, i) == AckAt(digest, b, j, i) <==> b.commands[i].payloadHash != ""
  {
    var j := History(digest, [], past);
    JournalOnlyGrows(digest, [], past);
    BatchKeepsJournal(digest, b, j);
    var synced := Sync(digest, b, j);
    var later := History(digest, synced, future);
    JournalOnlyGrows(digest, synced, future);
    ReplayInsertsNothing(digest, b, again, j, later, |b.commands|);
    forall i: nat | i < |b.commands| && AckAt(digest, b, j, i).Some? && FaultAt(again, i) != LookupFails
      ensures AckAt(digest, again, later, i) == AckAt(digest, b, j, i) <==> b.commands[i].payloadHash != ""
    {
      ReplayedAck(digest, b, again, j, later, i);
    }
  }

  // ---------------------------------------------------------------- order within a device

  /** A device's entries appear in the journal in ascending sequence. */
  predicate Ordered(j: Journal, device: string) {
    forall i, k | 0 <= i < k < |j| && j[i].deviceId == device && j[k].deviceId == device ::
      j[i].clientSequence < j[k].clientSequence
  }

  predicate Ascending(cs: seq<Command>) {
    forall i, k | 0 <= i < k < |cs| :: cs[i].clientSequence < cs[k].clientSequence
  }

  /** A batch sorted by sequence keeps the device's entries in order, whatever fails. */
  lemma AscendingBatchKeepsOrder(digest: Digest, b: Batch, j: Journal)
    requires Ascending(b.commands) && Ordered(j, b.deviceId)
    ensures Ordered(Sync(digest, b, j), b.deviceId)
  {
    OrderKeptIffInsertedAscend(digest, b, j);
  }

  predicate InsertedAt(digest: Digest, b: Batch, j: Journal, i: nat)
    requires i < |b.commands|
  {
    VerdictAt(digest, b, j, i).Inserted?
  }

  /** The commands that are inserted, of the first n, come in ascending sequence. */
  predicate InsertedAscend(digest: Digest, b: Batch, j: Journal, n: nat)
    requires n <= |b.commands|
  {
    forall i, k | 0 <= i < k < n && InsertedAt(digest, b, j, i) && InsertedAt(digest, b, j, k) ::
      b.commands[i].clientSequence < b.commands[k].clientSequence
  }

  /** The entry is one of the first n commands, inserted. */
  predicate FromCommand(digest: Digest, b: Batch, j: Journal, n: nat, e: JournalEntry)
    requires n <= |b.commands|
  {
    exists i | 0 <= i < n :: InsertedAt(digest, b, j, i) && e == NewEntry(digest, b, b.commands[i])
  }

  /** Every new entry is an inserted command, and every inserted command an entry. */
  predicate InsertedAre(digest: Digest, b: Batch, j: Journal, n: nat)
    requires n <= |b.commands|
  {
    var grown := JournalAfter(digest, b, j, n);
    && j <= grown
    && (forall x | |j| <= x < |grown| :: FromCommand(digest, b, j, n, grown[x]))
    && (forall i | 0 <= i < n && InsertedAt(digest, b, j, i) :: NewEntry(digest, b, b.commands[i]) in grown)
  }

  lemma {:induction false} InsertedAreEntries(digest: Digest, b: Batch, j: Journal, n: nat)
    requires n <= |b.commands|
    ensures InsertedAre(digest, b, j, n)
  {
    if n > 0 {
      InsertedAreEntries(digest, b, j, n - 1);
      var before, grown := JournalAfter(digest, b, j, n - 1), JournalAfter(digest, b, j, n);
      InsertionFacts(digest, b, HighWater(j, b.deviceId), before, b.commands[n - 1], FaultAt(b, n - 1));
      forall x | |j| <= x < |grown| ensures FromCommand(digest, b, j, n, grown[x]) {
        if x < |before| {
          assert FromCommand(digest, b, j, n - 1, before[x]);
          var i: nat :| i < n - 1 && InsertedAt(digest, b, j, i) && before[x] == NewEntry(digest, b, b.commands[i]);
          assert InsertedAt(digest, b, j, i) && grown[x] == NewEntry(digest, b, b.commands[i]);
        } else {
          assert InsertedAt(digest, b, j, n - 1);
        }
      }
    }
  }

  lemma OrderedSnoc(j: Journal, e: JournalEntry, device: string)
    ensures Ordered(j + [e], device)
            <==> Ordered(j, device)
                 && (e.deviceId == device ==> OnTop(j, device, e.clientSequence))
  {
    var longer := j + [e];
    if Ordered(longer, device) {
      forall i, k | 0 <= i < k < |j| && j[i].deviceId == device && j[k].deviceId == device
        ensures j[i].clientSequence < j[k].clientSequence
      {
        assert longer[i] == j[i] && longer[k] == j[k];
      }
      forall i | 0 <= i < |j| && j[i].deviceId == device && e.deviceId == device
        ensures j[i].clientSequence < e.clientSequence
      {
        assert longer[i] == j[i] && longer[|j|] == e;
      }
    }
  }

  /** Command n lies above the commands inserted before it. */
  predicate AboveInserted(digest: Digest, b: Batch, j: Journal, n: nat)
    requires n < |b.commands|
  {
    forall i | 0 <= i < n && InsertedAt(digest, b, j, i) :: b.commands[i].clientSequence < b.commands[n].clientSequence
  }

  lemma InsertedAscendSnoc(digest: Digest, b: Batch, j: Journal, n: nat)
    requires n < |b.commands|
    ensures InsertedAscend(digest, b, j, n + 1)
            <==> InsertedAscend(digest, b, j, n) && (InsertedAt(digest, b, j, n) ==> AboveInserted(digest, b, j, n))
  {
  }

  predicate OrderedAfter(digest: Digest, b: Batch, j: Journal, n: nat)
    requires n <= |b.commands|
  {
    Ordered(JournalAfter(digest, b, j, n), b.deviceId)
  }

  lemma NextOrderedIff(digest: Digest, b: Batch, j: Journal, n: nat)
    requires n < |b.commands|
    ensures OrderedAfter(digest, b, j, n + 1)
            <==> OrderedAfter(digest, b, j, n) && (InsertedAt(digest, b, j, n) ==> AboveInserted(digest, b, j, n))
  {
    var before, v := JournalAfter(digest, b, j, n), VerdictAt(digest, b, j, n);
    if v.Inserted? {
      InsertionFacts(digest, b, HighWater(j, b.deviceId), before, b.commands[n], FaultAt(b, n));
      OrderedSnoc(before, v.entry, b.deviceId);
      InsertedAreEntries(digest, b, j, n);
      LastOnTopIff(digest, b, j, n);
    } else {
      assert JournalAfter(digest, b, j, n + 1) == before;
    }
  }

  lemma {:induction false} PrefixOrderedIff(digest: Digest, b: Batch, j: Journal, n: nat)
    requires n <= |b.commands| && Ordered(j, b.deviceId)
    ensures OrderedAfter(digest, b, j, n) <==> InsertedAscend(digest, b, j, n)
  {
    if n > 0 {
      PrefixOrderedIff(digest, b, j, n - 1);
      InsertedAscendSnoc(digest, b, j, n - 1);
      NextOrderedIff(digest, b, j, n - 1);
    }
  }

  /** The sequence lies above all the device has. */
  predicate OnTop(j: Journal, device: string, sequence: int) {
    forall i | 0 <= i < |j| && j[i].deviceId == device :: j[i].clientSequence < sequence
  }

  /** The next inserted command lies above all the device has exactly when it lies above those inserted
      before it. */
  lemma LastOnTopIff(digest: Digest, b: Batch, j: Journal, n: nat)
    requires n < |b.commands| && InsertedAre(digest, b, j, n) && InsertedAt(digest, b, j, n)
    ensures OnTop(JournalAfter(digest, b, j, n), b.deviceId, b.commands[n].clientSequence)
            <==> AboveInserted(digest, b, j, n)
  {
    var before, c := JournalAfter(digest, b, j, n), b.commands[n];
    HighWaterExact(j, b.deviceId);
    InsertionFacts(digest, b, HighWater(j, b.deviceId), before, c, FaultAt(b, n));
    if AboveInserted(digest, b, j, n) {
      forall x | 0 <= x < |before| && before[x].deviceId == b.deviceId
        ensures before[x].clientSequence < c.clientSequence
      {
        assert x < |j| ==> before[x] == j[x];
        assert x >= |j| ==> FromCommand(digest, b, j, n, before[x]);
      }
    }
    if OnTop(before, b.deviceId, c.clientSequence) {
      forall i | 0 <= i < n && InsertedAt(digest, b, j, i) ensures b.commands[i].clientSequence < c.clientSequence {
        assert NewEntry(digest, b, b.commands[i]) in before;
      }
    }
  }

  /** The mark is read once per batch, so order inside a batch is not enforced: any batch, whatever it
      resends and whatever is refused or fails, keeps the device's entries in order exactly when those of
      its commands that are inserted come in ascending sequence. */
  lemma OrderKeptIffInsertedAscend(digest: Digest, b: Batch, j: Journal)
    requires Ordered(j, b.deviceId)
    ensures Ordered(Sync(digest, b, j), b.deviceId) <==> InsertedAscend(digest, b, j, |b.commands|)
  {
    PrefixOrderedIff(digest, b, j, |b.commands|);
  }

  /** Nothing stands in the way of the batch: new distinct ids, sequences above the mark, no
      forbidden payload, no failed write. */
  predicate AllNew(b: Batch, j: Journal) {
    && NoWriteFails(b)
    && (forall i | 0 <= i < |b.commands| ::
          HighWater(j, b.deviceId) < b.commands[i].clientSequence
          && !(b.role == "staff" && HasApprovalFields(b.commands[i].payload)))
    && (forall i, k | 0 <= i < k < |b.commands| :: b.commands[i].id != b.commands[k].id)
    && (forall i, k | 0 <= i < |b.commands| && 0 <= k < |j| :: b.commands[i].id != j[k].commandId)
  }

  lemma {:induction false} AllNewIsInserted(digest: Digest, b: Batch, j: Journal, n: nat)
    requires n <= |b.commands| && AllNew(b, j)
    ensures var grown := JournalAfter(digest, b, j, n);
            && |grown| == |j| + n && j <= grown
            && forall i | 0 <= i < n :: grown[|j| + i] == NewEntry(digest, b, b.commands[i])
  {
    if n > 0 {
      AllNewIsInserted(digest, b, j, n - 1);
      var before := JournalAfter(digest, b, j, n - 1);
      FindExact(before, b.commands[n - 1].id);
      forall k | 0 <= k < |before| ensures before[k].commandId != b.commands[n - 1].id {
        if k >= |j| {
          assert before[|j| + (k - |j|)] == NewEntry(digest, b, b.commands[k - |j|]);
        } else {
          assert before[k] == j[k];
        }
      }
      assert FaultAt(b, n - 1) in {NoFault, ActivityLogFails};
      assert VerdictAt(digest, b, j, n - 1).Inserted?;
    }
  }

  /** In particular a batch of new commands keeps the order exactly when it is itself sorted. */
  lemma OrderKeptIffAscending(digest: Digest, b: Batch, j: Journal)
    requires Ordered(j, b.deviceId) && AllNew(b, j)
    ensures Ordered(Sync(digest, b, j), b.deviceId) <==> Ascending(b.commands)
  {
    OrderKeptIffInsertedAscend(digest, b, j);
    forall i | 0 <= i < |b.commands| ensures InsertedAt(digest, b, j, i) {
      AllNewIsInserted(digest, b, j, i);
      AllNewIsInserted(digest, b, j, i + 1);
    }
  }
}
