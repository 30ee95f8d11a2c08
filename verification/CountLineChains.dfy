/** Creating and recounting count lines: the two locks, the duplicate check, the two writes and what
    refuses them (backend/api/count_lines_routes.py, with the lock service of
    backend/services/locking/mongo_service.py, the duplicate filter of
    backend/services/canonical_inventory.py and the write checks of
    backend/services/count_lines/validation.py). */
module CountLineChains {
  import opened Common

  // ---------------------------------------------------------------- requests and lines

  /** A create or recount request, its text fields already stripped. */
  datatype Request = Request(
    sessionId: string,
    itemCode: string,
    locationId: Option<string>,
    floorId: Option<string>,
    rackId: Option<string>,
    floorNo: Option<string>,
    rackNo: Option<string>,
    recountOf: Option<string>,
    barcode: string,             // its own, or the item's
    quantity: real,
    owner: string,
    productId: Option<string>)

  /** Where a line was counted. */
  datatype Place = Place(sessionId: string, itemCode: string, floor: Option<string>, rack: Option<string>)

  datatype LineStatus = Pending | ApprovedLine | RejectedLine | LockedLine | SupersededLine

  datatype Line = Line(
    id: string,
    place: Place,
    locationId: string,
    barcode: string,
    status: LineStatus,
    version: nat,
    iteration: nat,
    recountOf: Option<string>,
    previous: Option<string>,
    supersededBy: Option<string>,
    quantity: real)

  type Store = map<string, Line>

  function OrElse(a: Option<string>, b: Option<string>): Option<string> {
    if Truthy(a) then a else b
  }

  /** `normalize_location_context`: a missing floor or rack id is filled from the number. */
  function CanonicalId(id: Option<string>, number: Option<string>): Option<string> {
    if !Truthy(id) && Truthy(number) then number else id
  }

  /** The place the new document records: the number, or else the id. */
  function StoredPlace(r: Request): Place {
    Place(r.sessionId, r.itemCode,
          OrElse(r.floorNo, CanonicalId(r.floorId, r.floorNo)),
          OrElse(r.rackNo, CanonicalId(r.rackId, r.rackNo)))
  }

  function NormalizeLocation(value: Option<string>): Option<string> {
    if Truthy(value) then value else None
  }

  /** The place the duplicate check looks for: the numbers alone. */
  function FilterPlace(r: Request): Place {
    Place(r.sessionId, r.itemCode, NormalizeLocation(r.floorNo), NormalizeLocation(r.rackNo))
  }

  /** The duplicate check looks where the line is going to be stored. */
  predicate PlacesAgree(r: Request) {
    StoredPlace(r) == FilterPlace(r)
  }

  /** The two places agree exactly for requests that number their floor and rack, or leave them out
      altogether; which ids they give does not matter. */
  lemma PlacesAgreeIff(r: Request)
    ensures PlacesAgree(r) <==> (Truthy(r.floorNo) || r.floorId.None?) && (Truthy(r.rackNo) || r.rackId.None?)
  {
  }

  /** Lock keys are texts; a location's and a variant's are taken to differ. */
  datatype Key = VariantKey(text: string) | LocationKey(text: string)

  function TextOf(o: Option<string>): string {
    if o.Some? then o.value else ""
  }

  /** `_build_count_line_lock_keys`. */
  function LocationLock(r: Request): Key {
    LocationKey(r.sessionId + ":" + r.itemCode + ":"
                + TextOf(OrElse(CanonicalId(r.floorId, r.floorNo), r.floorNo)) + ":"
                + TextOf(OrElse(CanonicalId(r.rackId, r.rackNo), r.rackNo)))
  }

  function VariantLock(r: Request): Option<Key> {
    if Truthy(r.productId)
    then Some(VariantKey("session:" + r.sessionId + ":product:" + r.productId.value))
    else None
  }

  predicate Superseded(l: Line) {
    l.status.SupersededLine? || Truthy(l.supersededBy)
  }

  /** `find_duplicate_count_line` may return any live line that matches. */
  predicate LiveAt(store: Store, id: string, p: Place) {
    id in store && store[id].place == p && !Superseded(store[id])
  }

  predicate NoneLiveAt(store: Store, p: Place) {
    forall id | id in store :: !LiveAt(store, id, p)
  }

  predicate DuplicateLookup(store: Store, r: Request, found: Option<string>) {
    match found
    case Some(id) => LiveAt(store, id, FilterPlace(r))
    case None => NoneLiveAt(store, FilterPlace(r))
  }

  /** `can_reuse_rejected_count_line`: an explicit recount of exactly this rejected line. */
  predicate Reusable(r: Request, existing: Line) {
    Truthy(r.recountOf) && r.recountOf.value == existing.id && existing.status.RejectedLine?
  }

  /** A version as the source reads it: zero counts as one. */
  function OrOne(version: nat): nat {
    if version == 0 then 1 else version
  }

  /** `_build_count_line_document`. */
  function NewLine(r: Request, id: string, target: Option<Line>): Line {
    match target
    case None =>
      Line(id, StoredPlace(r), TextOf(r.locationId), r.barcode, Pending, 1, 0, r.recountOf, None, None, r.quantity)
    case Some(t) =>
      Line(id, StoredPlace(r), TextOf(r.locationId), r.barcode, Pending, OrOne(t.version) + 1, t.iteration + 1,
           if Truthy(r.recountOf) then r.recountOf else OrElse(t.recountOf, Some(t.id)), Some(t.id), None, r.quantity)
  }

  // ---------------------------------------------------------------- what the write service refuses

  /** The logical identity of a count line that the semantic hash is taken of. */
  datatype Fingerprint = Fingerprint(place: Place, locationId: string, barcode: string, quantity: real, version: nat)

  function Print(l: Line): Fingerprint {
    Fingerprint(l.place, l.locationId, l.barcode, l.quantity, OrOne(l.version))
  }

  /** Another stored line has the same fingerprint. */
  predicate Clashes(store: Store, l: Line) {
    exists id | id in store :: id != l.id && Print(store[id]) == Print(l)
  }

  /** The location, floor and rack a new line must name. */
  predicate Complete(r: Request) {
    Truthy(r.locationId) && Truthy(CanonicalId(r.floorId, r.floorNo)) && Truthy(CanonicalId(r.rackId, r.rackNo))
  }

  /** The target is stored and the new line's version is the next after the target's. */
  predicate Continues(store: Store, line: Line, target: Option<Line>) {
    target.Some? ==> target.value.id in store && line.version == OrOne(store[target.value.id].version) + 1
  }

  /** The insert passes the checks of `_assert_mandatory_write_invariants`. */
  predicate Insertable(store: Store, r: Request, line: Line, target: Option<Line>) {
    Complete(r) && Continues(store, line, target) && !Clashes(store, line)
  }

  function WithLine(store: Store, line: Line): Store {
    store[line.id := line]
  }

  /** The target with what the second write sets. */
  function Retired(t: Line, line: Line): Line {
    t.(status := SupersededLine, supersededBy := Some(line.id), locationId := line.locationId)
  }

  function Retire(store: Store, id: string, line: Line): Store
    requires id in store
  {
    store[id := Retired(store[id], line)]
  }

  /** `_persist_count_line_document` when both writes go through. */
  function Persist(store: Store, line: Line, target: Option<Line>): Store {
    if target.Some? && target.value.id in store then Retire(WithLine(store, line), target.value.id, line)
    else WithLine(store, line)
  }

  // ---------------------------------------------------------------- the system

  datatype Phase =
    | Waiting                                  // holds the variant lock, if it needs one
    | Holding                                  // holds both locks
    | Checked(target: Option<Line>)            // duplicate check passed
    | Inserted(id: string, targetId: string)   // new line stored, target not yet superseded
    | Finished                                 // stored, locks not yet released

  /** A request with the version its session had when it was loaded. */
  datatype InFlight = InFlight(r: Request, phase: Phase, session: nat)

  datatype System = System(
    store: Store,
    locks: map<Key, string>,
    requests: map<nat, InFlight>,
    sessions: map<string, nat>)        // session versions

  datatype Event =
    | Arrive(pid: nat, r: Request, session: nat)
    | AcquireLocation(pid: nat)
    | Check(pid: nat, found: Option<string>)
    | Insert(pid: nat, newId: string)
    | Supersede(pid: nat)
    | Release(pid: nat)                        // normal end, or the finally block of a failed request
    | SetStatus(id: string, status: LineStatus)    // supervisor decisions, verification
    | EditQuantity(id: string, quantity: real)     // quantity edits bump the version
    | Touch(sessionId: string)                     // the session is written and its version rises

  function VersionOf(sessions: map<string, nat>, id: string): nat {
    if id in sessions then sessions[id] else 0
  }

  /** `acquire_lock`: granted when the key is free, and also to the owner that already holds it. */
  predicate Granted(locks: map<Key, string>, key: Key, owner: string) {
    key in locks ==> locks[key] == owner
  }

  /** `release_lock` deletes only the caller's own lock. */
  function Unlock(locks: map<Key, string>, key: Key, owner: string): map<Key, string> {
    if key in locks && locks[key] == owner then locks - {key} else locks
  }

  function UnlockBoth(locks: map<Key, string>, r: Request): map<Key, string> {
    var rest := Unlock(locks, LocationLock(r), r.owner);
    match VariantLock(r)
    case None => rest
    case Some(key) => Unlock(rest, key, r.owner)
  }

  function Drop(s: System, pid: nat): System {
    s.(requests := s.requests - {pid})
  }

  function Advance(s: System, pid: nat, phase: Phase): System
    requires pid in s.requests
  {
    s.(requests := s.requests[pid := s.requests[pid].(phase := phase)])
  }

  predicate InPhase(s: System, pid: nat, phase: Phase) {
    pid in s.requests && s.requests[pid].phase == phase
  }

  /** The session has not been written since the request loaded it. */
  predicate SessionStands(s: System, f: InFlight) {
    f.session == VersionOf(s.sessions, f.r.sessionId)
  }

  function WithStatus(store: Store, id: string, status: LineStatus): Store
    requires id in store
  {
    store[id := store[id].(status := status)]
  }

  function WithQuantity(store: Store, id: string, quantity: real): Store
    requires id in store
  {
    store[id := store[id].(quantity := quantity, version := store[id].version + 1)]
  }

  /** The event can happen in this state. */
  predicate Enabled(s: System, ev: Event) {
    match ev
    case Arrive(pid, r, session) => pid !in s.requests && session <= VersionOf(s.sessions, r.sessionId)
    case AcquireLocation(pid) => InPhase(s, pid, Waiting)
    case Check(pid, found) => InPhase(s, pid, Holding) && DuplicateLookup(s.store, s.requests[pid].r, found)
    case Insert(pid, newId) => pid in s.requests && s.requests[pid].phase.Checked? && newId !in s.store && newId != ""
    case Supersede(pid) => pid in s.requests && s.requests[pid].phase.Inserted?
    case Release(pid) => pid in s.requests && !s.requests[pid].phase.Waiting?
    case SetStatus(id, status) => id in s.store && !status.SupersededLine?
    case EditQuantity(id, quantity) => id in s.store && !Clashes(s.store, WithQuantity(s.store, id, quantity)[id])
    case Touch(_) => true
  }

  /** The request ends, its locks released. */
  function End(s: System, pid: nat): System
    requires pid in s.requests
  {
    Drop(s.(locks := UnlockBoth(s.locks, s.requests[pid].r)), pid)
  }

  /** The first write: refused, or the new line is stored beside its target. */
  function InsertStep(s: System, pid: nat, newId: string): System
    requires pid in s.requests && s.requests[pid].phase.Checked?
  {
    var f := s.requests[pid];
    var target := f.phase.target;
    var line := NewLine(f.r, newId, target);
    if !(SessionStands(s, f) && Insertable(s.store, f.r, line, target)) then End(s, pid)
    else
      Advance(s.(store := WithLine(s.store, line)), pid,
              if target.Some? then Inserted(newId, target.value.id) else Finished)
  }

  /** The second write can find its lines, its session as it was loaded, and no other line like the
      target as it will be. */
  predicate Retirable(s: System, f: InFlight)
    requires f.phase.Inserted?
  {
    && f.phase.id in s.store && f.phase.targetId in s.store
    && SessionStands(s, f)
    && !Clashes(s.store, Retired(s.store[f.phase.targetId], s.store[f.phase.id]))
  }

  /** The second write: refused, which leaves both lines, or the target is superseded. */
  function SupersedeStep(s: System, pid: nat): System
    requires pid in s.requests && s.requests[pid].phase.Inserted?
  {
    var f := s.requests[pid];
    if !Retirable(s, f) then End(s, pid)
    else Advance(s.(store := Retire(s.store, f.phase.targetId, s.store[f.phase.id])), pid, Finished)
  }

  function Step(s: System, ev: Event): System
    requires Enabled(s, ev)
  {
    match ev
    case Arrive(pid, r, session) =>
      (match VariantLock(r)
       case None => s.(requests := s.requests[pid := InFlight(r, Waiting, session)])
       case Some(key) =>
         if Granted(s.locks, key, r.owner)
         then s.(locks := s.locks[key := r.owner], requests := s.requests[pid := InFlight(r, Waiting, session)])
         else s)
    case AcquireLocation(pid) =>
      var r := s.requests[pid].r;
      if Granted(s.locks, LocationLock(r), r.owner)
      then Advance(s.(locks := s.locks[LocationLock(r) := r.owner]), pid, Holding)
      else Drop(s, pid)                    // 423: the variant lock stays behind
    case Check(pid, found) =>
      if found.None? then Advance(s, pid, Checked(None))
      else if Reusable(s.requests[pid].r, s.store[found.value])
      then Advance(s, pid, Checked(Some(s.store[found.value])))
      else End(s, pid)                     // 409, locks released
    case Insert(pid, newId) => InsertStep(s, pid, newId)
    case Supersede(pid) => SupersedeStep(s, pid)
    case Release(pid) => End(s, pid)
    case SetStatus(id, status) => s.(store := WithStatus(s.store, id, status))
    case EditQuantity(id, quantity) => s.(store := WithQuantity(s.store, id, quantity))
    case Touch(id) => s.(sessions := s.sessions[id := VersionOf(s.sessions, id) + 1])
  }

  const IDLE := System(map[], map[], map[], map[])

  /** The events can happen one after another, starting idle; and what they lead to. */
  predicate Possible(events: seq<Event>) {
    events == [] || (Possible(events[..|events| - 1]) && Enabled(Run(events[..|events| - 1]), events[|events| - 1]))
  }

  function Run(events: seq<Event>): System {
    if events == [] then IDLE else Try(Run(events[..|events| - 1]), events[|events| - 1])
  }

  /** An event that cannot happen is skipped. */
  function Try(s: System, ev: Event): System {
    if Enabled(s, ev) then Step(s, ev) else s
  }

  // ---------------------------------------------------------------- one request, in place

  /** What the two writes leave, and whether both went through; `secondFails` stands for any failure of
      the second one besides its own checks. */
  function Writes(store: Store, r: Request, line: Line, target: Option<Line>, secondFails: bool): (Store, bool) {
    if !Insertable(store, r, line, target) then (store, false)
    else if target.None? then (WithLine(store, line), true)
    else
      var both := WithLine(store, line);
      if secondFails || Clashes(both, Retired(both[target.value.id], line)) then (both, false)
      else (Retire(both, target.value.id, line), true)
  }

  /** The events of a request that holds its locks, with nobody in between; events after a refusal are
      skipped. */
  function AfterLocks(s: System, found: Option<string>, newId: string, secondFails: bool): System {
    var inserted := Try(Try(s, Check(0, found)), Insert(0, newId));
    Try(if secondFails then inserted else Try(inserted, Supersede(0)), Release(0))
  }

  /** One request's events with nobody in between. */
  function Uninterrupted(s: System, r: Request, found: Option<string>, newId: string, secondFails: bool): System {
    var arrived := Try(s, Arrive(0, r, VersionOf(s.sessions, r.sessionId)));
    AfterLocks(Try(arrived, AcquireLocation(0)), found, newId, secondFails)
  }

  /** The locks after an attempt to take both, and whether it succeeded: when the location lock is
      refused, the variant lock stays behind. */
  function Acquired(locks: map<Key, string>, r: Request): (bool, map<Key, string>) {
    var wanted := VariantLock(r);
    if wanted.Some? && !Granted(locks, wanted.value, r.owner) then (false, locks)
    else
      var first := if wanted.Some? then locks[wanted.value := r.owner] else locks;
      if Granted(first, LocationLock(r), r.owner) then (true, first[LocationLock(r) := r.owner]) else (false, first)
  }

  /** The state in which one request holds its locks. */
  function Inside(s: System, r: Request, locks: map<Key, string>): System {
    System(s.store, locks, map[0 := InFlight(r, Holding, VersionOf(s.sessions, r.sessionId))], s.sessions)
  }

  lemma AcquireEvents(s: System, r: Request)
    requires s.requests == map[]
    ensures var (ok, after) := Acquired(s.locks, r);
            var arrived := Try(s, Arrive(0, r, VersionOf(s.sessions, r.sessionId)));
            Try(arrived, AcquireLocation(0)) == if ok then Inside(s, r, after) else s.(locks := after)
  {
    var session := VersionOf(s.sessions, r.sessionId);
    var wanted := VariantLock(r);
    var s1 := Try(s, Arrive(0, r, session));
    if wanted.Some? && !Granted(s.locks, wanted.value, r.owner) {
      assert s1 == s;
    } else {
      var first := if wanted.Some? then s.locks[wanted.value := r.owner] else s.locks;
      assert s1 == System(s.store, first, map[0 := InFlight(r, Waiting, session)], s.sessions);
      assert Try(s1, AcquireLocation(0)).requests
          == if Granted(first, LocationLock(r), r.owner) then map[0 := InFlight(r, Holding, session)] else map[];
    }
  }

  lemma NothingLeft(s: System, found: Option<string>, newId: string, secondFails: bool)
    requires s.requests == map[]
    ensures AfterLocks(s, found, newId, secondFails) == s
  {
  }

  lemma RefusedEvents(s: System, r: Request, locks: map<Key, string>, id: string, newId: string, secondFails: bool)
    requires LiveAt(s.store, id, FilterPlace(r)) && !Reusable(r, s.store[id]) && s.requests == map[]
    ensures AfterLocks(Inside(s, r, locks), Some(id), newId, secondFails) == s.(locks := UnlockBoth(locks, r))
  {
    var s1 := Try(Inside(s, r, locks), Check(0, Some(id)));
    assert s1.requests == map[];
  }

  /** Once the check has passed, the writes go as `Writes` says and the locks are released. */
  lemma WriteEvents(s: System, r: Request, locks: map<Key, string>, found: Option<string>, newId: string,
                    secondFails: bool)
    requires DuplicateLookup(s.store, r, found) && (found.Some? ==> Reusable(r, s.store[found.value]))
    requires found.Some? ==> s.store[found.value].id == found.value
    requires newId !in s.store && newId != "" && s.requests == map[]
    ensures var target := if found.Some? then Some(s.store[found.value]) else None;
            AfterLocks(Inside(s, r, locks), found, newId, secondFails)
            == System(Writes(s.store, r, NewLine(r, newId, target), target, secondFails).0, UnlockBoth(locks, r), map[],
                      s.sessions)
  {
    CheckEvent(s, r, locks, found);
    var target := if found.Some? then Some(s.store[found.value]) else None;
    CheckedEvents(Try(Inside(s, r, locks), Check(0, found)), r, target, newId, secondFails);
  }

  lemma CheckEvent(s: System, r: Request, locks: map<Key, string>, found: Option<string>)
    requires DuplicateLookup(s.store, r, found) && (found.Some? ==> Reusable(r, s.store[found.value]))
    ensures var target := if found.Some? then Some(s.store[found.value]) else None;
            Try(Inside(s, r, locks), Check(0, found))
            == System(s.store, locks, map[0 := InFlight(r, Checked(target), VersionOf(s.sessions, r.sessionId))],
                      s.sessions)
  {
  }

  /** The same from after the check. */
  lemma CheckedEvents(s: System, r: Request, target: Option<Line>, newId: string, secondFails: bool)
    requires s.requests == map[0 := InFlight(r, Checked(target), VersionOf(s.sessions, r.sessionId))]
    requires newId !in s.store && newId != ""
    ensures var inserted := Try(s, Insert(0, newId));
            Try(if secondFails then inserted else Try(inserted, Supersede(0)), Release(0))
            == System(Writes(s.store, r, NewLine(r, newId, target), target, secondFails).0,
                      UnlockBoth(s.locks, r), map[], s.sessions)
  {
    var session := VersionOf(s.sessions, r.sessionId);
    FirstWrite(s, r, target, session, newId);
    var inserted := Try(s, Insert(0, newId));
    if inserted.requests != map[] && target.Some? {
      StoredEvents(inserted, r, session, NewLine(r, newId, target), target.value.id, secondFails);
    }
  }

  /** The first write is refused and the request ends, or its line is stored. */
  lemma FirstWrite(s: System, r: Request, target: Option<Line>, session: nat, newId: string)
    requires s.requests == map[0 := InFlight(r, Checked(target), session)]
    requires session == VersionOf(s.sessions, r.sessionId)
    requires newId !in s.store && newId != ""
    ensures var line := NewLine(r, newId, target);
            var after := Try(s, Insert(0, newId));
            if !Insertable(s.store, r, line, target)
            then after == s.(locks := UnlockBoth(s.locks, r), requests := map[])
            else
              var phase := if target.Some? then Inserted(newId, target.value.id) else Finished;
              && after.requests == map[0 := InFlight(r, phase, session)]
              && after == s.(store := WithLine(s.store, line), requests := after.requests)
              && (target.None? ==>
                    Try(after, Release(0)) == System(after.store, UnlockBoth(s.locks, r), map[], s.sessions))
  {
    var after := Try(s, Insert(0, newId));
    if Insertable(s.store, r, NewLine(r, newId, target), target) {
      assert Try(after, Release(0)).requests == map[] || target.Some?;
    } else {
      assert after.requests == map[];
    }
  }

  /** The same from between the two writes. */
  lemma StoredEvents(s: System, r: Request, session: nat, line: Line, t: string, secondFails: bool)
    requires s.requests == map[0 := InFlight(r, Inserted(line.id, t), session)]
    requires line.id in s.store && s.store[line.id] == line && t in s.store
    requires session == VersionOf(s.sessions, r.sessionId)
    ensures Try(if secondFails then s else Try(s, Supersede(0)), Release(0))
            == System(if secondFails || Clashes(s.store, Retired(s.store[t], line)) then s.store
                      else Retire(s.store, t, line),
                      UnlockBoth(s.locks, r), map[], s.sessions)
  {
    var s1 := if secondFails then s else Try(s, Supersede(0));
    assert s1.requests == map[] || s1.requests == map[0 := InFlight(r, Finished, session)] || s1 == s;
    assert Try(s1, Release(0)).requests == map[];
  }

  /** The line was rejected and is the one the request says it recounts. */
  predicate MayRecount(r: Request, l: Line) {
    l.status == RejectedLine && r.recountOf == Some(l.id) && l.id != ""
  }

  /** The first of the two that is given and not empty. */
  predicate IsEither(value: Option<string>, a: Option<string>, b: Option<string>) {
    if a.Some? && a.value != "" then value == a
    else if b.Some? && b.value != "" then value == b
    else value.None? || value.value == ""
  }

  /** The line says what was counted where, and follows the line it recounts, if any. */
  predicate IsCountOf(l: Line, r: Request, id: string, target: Option<Line>) {
    && l.id == id
    && l.place.sessionId == r.sessionId && l.place.itemCode == r.itemCode
    && IsEither(l.place.floor, r.floorNo, r.floorId) && IsEither(l.place.rack, r.rackNo, r.rackId)
    && (r.locationId.Some? ==> l.locationId == r.locationId.value)
    && l.barcode == r.barcode && l.quantity == r.quantity
    && l.status == Pending && l.supersededBy == None
    && match target
       case None => l.previous == None && l.version == 1 && l.iteration == 0 && l.recountOf == r.recountOf
       case Some(t) =>
         && l.previous == Some(t.id) && l.iteration == t.iteration + 1
         && l.version == (if t.version == 0 then 2 else t.version + 1)
         && (MayRecount(r, t) ==> l.recountOf == Some(t.id))
  }

  lemma NewLineIsCount(r: Request, id: string, target: Option<Line>)
    ensures IsCountOf(NewLine(r, id, target), r, id, target)
  {
  }

  // ---------------------------------------------------------------- locks and writes, field by field

  /** Both lines say the same, by every field the fingerprint is taken of. */
  predicate SameFields(a: Line, b: Line) {
    && a.place == b.place && a.locationId == b.locationId && a.barcode == b.barcode && a.quantity == b.quantity
    && (if a.version == 0 then 1 else a.version) == (if b.version == 0 then 1 else b.version)
  }

  /** Nothing else stored says the same as the line. */
  predicate Unlike(store: Store, l: Line) {
    forall id | id in store && id != l.id :: !SameFields(store[id], l)
  }

  predicate Given(a: Option<string>, b: Option<string>) {
    (a.Some? && a.value != "") || (b.Some? && b.value != "")
  }

  /** The first write may go through: location, floor and rack are named, the version is the next after the
      target's, and the line is not there already. */
  predicate MayStore(store: Store, r: Request, line: Line, target: Option<Line>) {
    && Given(r.locationId, None) && Given(r.floorId, r.floorNo) && Given(r.rackId, r.rackNo)
    && (target.Some? ==>
          target.value.id in store
          && line.version == (if store[target.value.id].version == 0 then 2 else store[target.value.id].version + 1))
    && Unlike(store, line)
  }

  lemma MayStoreIff(store: Store, r: Request, line: Line, target: Option<Line>)
    ensures Insertable(store, r, line, target) <==> MayStore(store, r, line, target)
  {
    assert forall id | id in store :: Print(store[id]) == Print(line) <==> SameFields(store[id], line);
  }

  /** The line is stored and nothing else has changed. */
  predicate OnlyAdds(before: Store, after: Store, line: Line) {
    && after.Keys == before.Keys + {line.id} && after[line.id] == line
    && forall id | id in before && id != line.id :: after[id] == before[id]
  }

  /** The line is stored, its target superseded by it, and nothing else has changed. */
  predicate Replaces(before: Store, after: Store, line: Line, t: string) {
    && after.Keys == before.Keys + {line.id} && after[line.id] == line
    && (forall id | id in before && id != line.id && id != t :: after[id] == before[id])
    && t in before
    && var (old', new') := (before[t], after[t]);
       && new'.id == old'.id && new'.place == old'.place && new'.barcode == old'.barcode
       && new'.quantity == old'.quantity && new'.version == old'.version && new'.iteration == old'.iteration
       && new'.recountOf == old'.recountOf && new'.previous == old'.previous
       && new'.status == SupersededLine && new'.supersededBy == Some(line.id)
       && new'.locationId == line.locationId
  }

  /** Both writes go through. */
  predicate Succeeds(store: Store, r: Request, line: Line, target: Option<Line>, secondFails: bool) {
    && MayStore(store, r, line, target)
    && (target.Some? ==> !secondFails && Unlike(store[line.id := line],
                                                store[target.value.id].(locationId := line.locationId)))
  }

  /** What the two writes leave: nothing if the first is refused, both if the second goes through or there
      is no target, and otherwise the first alone. */
  predicate Stores(before: Store, after: Store, r: Request, line: Line, target: Option<Line>, ok: bool) {
    if !MayStore(before, r, line, target) then after == before
    else if target.Some? && ok then Replaces(before, after, line, target.value.id)
    else OnlyAdds(before, after, line)
  }

  lemma WritesTable(store: Store, r: Request, line: Line, target: Option<Line>, secondFails: bool)
    requires line.id !in store && OwnIds(store)
    ensures var (after, ok) := Writes(store, r, line, target, secondFails);
            (ok <==> Succeeds(store, r, line, target, secondFails)) && Stores(store, after, r, line, target, ok)
  {
    MayStoreIff(store, r, line, target);
    if MayStore(store, r, line, target) && target.Some? {
      SecondWriteIff(store[line.id := line], target.value.id, line);
    }
  }

  lemma SecondWriteIff(both: Store, t: string, line: Line)
    requires t in both
    ensures Clashes(both, Retired(both[t], line)) <==> !Unlike(both, both[t].(locationId := line.locationId))
  {
    var retired := Retired(both[t], line);
    assert forall id | id in both ::
        Print(both[id]) == Print(retired) <==> SameFields(both[id], both[t].(locationId := line.locationId));
  }

  /** Nobody else holds the key. */
  predicate Obtainable(locks: map<Key, string>, key: Key, owner: string) {
    key !in locks || locks[key] == owner
  }

  /** The keys a request needs: its place, and its product in its session if it names one. */
  predicate Needs(r: Request, key: Key) {
    key == LocationLock(r)
    || (r.productId.Some? && r.productId.value != ""
        && key == VariantKey("session:" + r.sessionId + ":product:" + r.productId.value))
  }

  /** Both locks are granted exactly when nobody else holds either; then both are the caller's and no other
      lock has changed. A refusal never takes the location lock or touches another's. */
  lemma LockTable(locks: map<Key, string>, r: Request)
    ensures var (ok, after) := Acquired(locks, r);
            && (ok <==> forall key | Needs(r, key) :: Obtainable(locks, key, r.owner))
            && (forall key | !Needs(r, key) :: key in after <==> key in locks)
            && (forall key | key in locks :: key in after && after[key] == locks[key])
            && (forall key | key in after && key !in locks :: after[key] == r.owner)
            && (ok ==> forall key | Needs(r, key) :: key in after && after[key] == r.owner)
            && (!ok && LocationLock(r) in after ==> LocationLock(r) in locks)
  {
    var wanted := VariantLock(r);
    assert Needs(r, LocationLock(r));
    assert wanted.Some? ==> Needs(r, wanted.value);
    assert forall key :: Needs(r, key) <==> key == LocationLock(r) || wanted == Some(key);
  }

  /** Releasing takes away the caller's own hold on the keys it needs, and nothing else. */
  lemma ReleaseTable(locks: map<Key, string>, r: Request)
    ensures var after := UnlockBoth(locks, r);
            forall key :: (key in after <==> key in locks && !(Needs(r, key) && locks[key] == r.owner))
                          && (key in after ==> after[key] == locks[key])
  {
    var wanted := VariantLock(r);
    assert forall key :: Needs(r, key) <==> key == LocationLock(r) || wanted == Some(key);
  }

  /** The text of the location lock: the ids of floor and rack, or their numbers where there is no id. */
  lemma LocationLockText(r: Request)
    ensures exists floor: string, rack: string ::
              LocationLock(r) == LocationKey(r.sessionId + ":" + r.itemCode + ":" + floor + ":" + rack)
              && IsText(floor, r.floorId, r.floorNo) && IsText(rack, r.rackId, r.rackNo)
  {
    var floor := TextOf(OrElse(CanonicalId(r.floorId, r.floorNo), r.floorNo));
    var rack := TextOf(OrElse(CanonicalId(r.rackId, r.rackNo), r.rackNo));
    assert IsText(floor, r.floorId, r.floorNo) && IsText(rack, r.rackId, r.rackNo);
  }

  predicate IsText(text: string, a: Option<string>, b: Option<string>) {
    if a.Some? && a.value != "" then text == a.value
    else if b.Some? && b.value != "" then text == b.value
    else text == ""
  }

  /** Every line is stored under its own id. */
  predicate OwnIds(store: Store) {
    forall id | id in store :: store[id].id == id
  }

  lemma WritesKeepOwnIds(store: Store, r: Request, line: Line, target: Option<Line>, secondFails: bool)
    requires OwnIds(store)
    ensures OwnIds(Writes(store, r, line, target, secondFails).0)
  {
  }

  /** The stored lines and the locks collection, changed in place. */
  class CountLineApi {
    var store: Store
    var locks: map<Key, string>
    var sessions: map<string, nat>
    const transactional: bool        // the database supports transactions

    constructor (transactional: bool)
      ensures store == map[] && locks == map[] && sessions == map[] && this.transactional == transactional
    {
      store, locks, sessions := map[], map[], map[];
      this.transactional := transactional;
    }

    /** `acquire_lock`. */
    method AcquireLock(key: Key, owner: string) returns (ok: bool)
      modifies this`locks
      ensures ok <==> Granted(old(locks), key, owner)
      ensures locks == if ok then old(locks)[key := owner] else old(locks)
    {
      if key in locks && locks[key] != owner {
        return false;
      }
      locks := locks[key := owner];
      ok := true;
    }

    /** `release_lock`. */
    method ReleaseLock(key: Key, owner: string)
      modifies this`locks
      ensures locks == Unlock(old(locks), key, owner)
    {
      if key in locks && locks[key] == owner {
        locks := locks - {key};
      }
    }

    /** `_acquire_count_line_locks`. */
    method AcquireLocks(r: Request) returns (ok: bool)
      modifies this`locks
      ensures (ok, locks) == Acquired(old(locks), r)
    {
      var wanted := VariantLock(r);
      if wanted.Some? {
        var got := AcquireLock(wanted.value, r.owner);
        if !got {
          return false;
        }
      }
      ok := AcquireLock(LocationLock(r), r.owner);
    }

    /** `_release_count_line_locks`. */
    method ReleaseLocks(r: Request)
      modifies this`locks
      ensures locks == UnlockBoth(old(locks), r)
    {
      ReleaseLock(LocationLock(r), r.owner);
      var wanted := VariantLock(r);
      if wanted.Some? {
        ReleaseLock(wanted.value, r.owner);
      }
    }

    /** `find_duplicate_count_line`: walk the matching lines, skip superseded ones. */
    method FindDuplicate(r: Request) returns (found: Option<string>)
      ensures DuplicateLookup(store, r, found)
    {
      var ids := store.Keys;
      while ids != {}
        invariant ids <= store.Keys
        invariant forall id | id in store && id !in ids :: !LiveAt(store, id, FilterPlace(r))
        decreases ids
      {
        var id :| id in ids;
        if store[id].place == FilterPlace(r) && !Superseded(store[id]) {
          return Some(id);
        }
        ids := ids - {id};
      }
      found := None;
    }

    /** The check for a stored line with the same semantic hash. */
    method FindClash(line: Line) returns (clash: bool)
      ensures clash <==> Clashes(store, line)
    {
      var ids := store.Keys;
      while ids != {}
        invariant ids <= store.Keys
        invariant forall id | id in store && id !in ids && id != line.id :: Print(store[id]) != Print(line)
        decreases ids
      {
        var id :| id in ids;
        if id != line.id && Print(store[id]) == Print(line) {
          return true;
        }
        ids := ids - {id};
      }
      clash := false;
    }

    /** `_persist_count_line_document`: two writes, each with its checks. The unit of work around them is
        left without a commit, so where there are transactions both are rolled back. */
    method PersistLine(r: Request, line: Line, target: Option<Line>, secondFails: bool) returns (ok: bool)
      requires line.id !in store
      modifies this`store
      ensures ok == Writes(old(store), r, line, target, secondFails).1
      ensures store == if transactional then old(store) else Writes(old(store), r, line, target, secondFails).0
    {
      var before := store;
      var clash := FindClash(line);
      if !Complete(r) || !Continues(store, line, target) || clash {
        return false;
      }
      store := store[line.id := line];
      ok := true;
      if target.Some? {
        var id := target.value.id;
        var retired := store[id].(status := SupersededLine, supersededBy := Some(line.id),
                                  locationId := line.locationId);
        clash := FindClash(retired);
        ok := !secondFails && !clash;
        if ok {
          store := store[id := retired];
        }
      }
      if transactional {
        store := before;
      }
    }

    /** `_create_and_persist_count_line`, from the locks to their release: the same as the request's
        events of the interleaved system with nobody in between. Where there are transactions nothing is
        stored, not even for a request that is answered with its line. */
    method CreateCountLine(r: Request, newId: string, secondFails: bool)
      returns (result: Result<Line, CreateError>, ghost found: Option<string>)
      requires newId !in store && newId != "" && OwnIds(store)
      modifies this
      ensures var before := System(old(store), old(locks), map[], old(sessions));
              var after := Uninterrupted(before, r, found, newId, secondFails);
              System(store, locks, map[], sessions) == if transactional then after.(store := old(store)) else after
      ensures result == Err(LockedByOther) <==> !Acquired(old(locks), r).0
      ensures Acquired(old(locks), r).0 ==> DuplicateLookup(old(store), r, found)
      ensures result == Err(DuplicateScan)
              <==> Acquired(old(locks), r).0 && found.Some? && !MayRecount(r, old(store)[found.value])
      ensures match result
              case Ok(line) =>
                IsCountOf(line, r, newId, if found.Some? then Some(old(store)[found.value]) else None)
                && (transactional || (newId in store && store[newId] == line))
              case Err(LockedByOther) => store == old(store)
              case Err(DuplicateScan) => store == old(store)
              case Err(WriteRefused) => true
      ensures !(result.Err? && result.error in {LockedByOther, DuplicateScan}) ==>
                var target := if found.Some? then Some(old(store)[found.value]) else None;
                var line := NewLine(r, newId, target);
                && (result.Ok? <==> Succeeds(old(store), r, line, target, secondFails))
                && if transactional then store == old(store)
                   else Stores(old(store), store, r, line, target, result.Ok?)
      ensures OwnIds(store)
    {
      ghost var s := System(store, locks, map[], sessions);
      AcquireEvents(s, r);
      var ok := AcquireLocks(r);
      if !ok {
        NothingLeft(s.(locks := locks), None, newId, secondFails);
        return Err(LockedByOther), None;
      }
      var duplicate := FindDuplicate(r);
      found := duplicate;
      if duplicate.Some? && !Reusable(r, store[duplicate.value]) {
        RefusedEvents(s, r, locks, duplicate.value, newId, secondFails);
        ReleaseLocks(r);
        return Err(DuplicateScan), found;
      }
      WriteEvents(s, r, locks, duplicate, newId, secondFails);
      var target := if duplicate.Some? then Some(store[duplicate.value]) else None;
      var line := NewLine(r, newId, target);
      WritesKeepOwnIds(store, r, line, target, secondFails);
      ok := PersistLine(r, line, target, secondFails);
      ReleaseLocks(r);
      NewLineIsCount(r, newId, target);
      WritesTable(s.store, r, line, target, secondFails);
      result := if ok then Ok(line) else Err(WriteRefused);
    }
  }

  datatype CreateError = LockedByOther | DuplicateScan | WriteRefused
}
