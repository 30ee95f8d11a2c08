/** Every interleaving of count and recount requests: what the stored lines look like while a recount's
    two writes are apart, and after one of them has failed (backend/api/count_lines_routes.py). */
module CountLineRuns {
  import opened Common
  import opened CountLineChains

  // ---------------------------------------------------------------- the stored lines

  predicate OneLivePerPlace(store: Store) {
    forall a, b | a in store && b in store && a != b && !Superseded(store[a]) && !Superseded(store[b]) ::
      store[a].place != store[b].place
  }

  /** Stored lines name a floor and a rack. */
  predicate Full(p: Place) {
    Truthy(p.floor) && Truthy(p.rack)
  }

  /** A recount stays at its target's place, raises the iteration and names the line it recounts; what
      supersedes a line is a recount of it. */
  predicate LinkOk(store: Store, id: string)
    requires id in store
  {
    var l := store[id];
    && l.id == id && id != "" && l.version >= 1 && Full(l.place)
    && (Superseded(l) <==> l.supersededBy.Some?)
    && (match l.previous
        case None => l.iteration == 0
        case Some(p) =>
          p in store && store[p].place == l.place && l.iteration == store[p].iteration + 1 && l.recountOf == Some(p))
    && (match l.supersededBy
        case None => true
        case Some(n) => n in store && store[n].previous == Some(id))
  }

  predicate Chained(store: Store) {
    forall id | id in store :: LinkOk(store, id)
  }

  /** A recount whose target is not superseded by it. */
  predicate Owes(store: Store, id: string)
    requires id in store
  {
    var p := store[id].previous;
    p.Some? && !(p.value in store && store[p.value].supersededBy == Some(id))
  }

  predicate NothingOwed(store: Store) {
    forall id | id in store :: !Owes(store, id)
  }

  /** Previous and superseded-by links are mutual inverses. */
  predicate Linked(store: Store) {
    Chained(store) && NothingOwed(store)
  }

  function LiveIds(store: Store, p: Place): set<string> {
    set id | id in store && LiveAt(store, id, p)
  }

  function OwingIds(store: Store, p: Place): set<string> {
    set id | id in store && store[id].place == p && Owes(store, id)
  }

  predicate Occupied(store: Store, p: Place) {
    exists id | id in store :: store[id].place == p
  }

  /** One live line at a place that was ever counted, and one more for every recount there that has not
      superseded its target. */
  predicate BalancedAt(store: Store, p: Place) {
    |LiveIds(store, p)| == |OwingIds(store, p)| + if Occupied(store, p) then 1 else 0
  }

  ghost predicate Balanced(store: Store) {
    forall p: Place :: BalancedAt(store, p)
  }

  predicate UniquePrints(store: Store) {
    forall a, b | a in store && b in store && a != b :: Print(store[a]) != Print(store[b])
  }

  lemma TwoLive(store: Store, a: string, b: string, p: Place)
    requires LiveAt(store, a, p) && LiveAt(store, b, p) && a != b
    ensures |LiveIds(store, p)| >= 2
  {
    assert |LiveIds(store, p)| == |LiveIds(store, p) - {a, b}| + 2;
  }

  /** What a balanced store says: its live lines are one per place, and its links inverse, exactly when
      no recount still owes the superseding of its target. */
  lemma SettledIff(store: Store)
    requires Chained(store) && Balanced(store)
    ensures OneLivePerPlace(store) <==> NothingOwed(store)
    ensures OneLivePerPlace(store) && Linked(store) <==> NothingOwed(store)
  {
    forall id | id in store && Owes(store, id) ensures !OneLivePerPlace(store) {
      var p := store[id].place;
      assert BalancedAt(store, p) && id in OwingIds(store, p) && Occupied(store, p);
      assert |OwingIds(store, p)| == |OwingIds(store, p) - {id}| + 1;
      TwoOf(LiveIds(store, p));
    }
    if NothingOwed(store) {
      forall a, b | a in store && b in store && a != b && !Superseded(store[a]) && !Superseded(store[b])
        ensures store[a].place != store[b].place
      {
        var p := store[a].place;
        assert BalancedAt(store, p) && OwingIds(store, p) == {};
        if store[b].place == p {
          TwoLive(store, a, b, p);
        }
      }
    }
  }

  lemma TwoOf(s: set<string>)
    requires |s| >= 2
    ensures exists a, b :: a in s && b in s && a != b
  {
    var a :| a in s;
    assert |s - {a}| == |s| - 1;
    var b :| b in s - {a};
  }

  // ---------------------------------------------------------------- the two writes

  lemma InsertLive(store: Store, line: Line, p: Place)
    requires line.id !in store && !Superseded(line)
    ensures LiveIds(WithLine(store, line), p) == LiveIds(store, p) + if line.place == p then {line.id} else {}
    ensures Occupied(WithLine(store, line), p) <==> Occupied(store, p) || line.place == p
  {
    var after := WithLine(store, line);
    assert after[line.id] == line && forall id | id in store :: after[id] == store[id];
  }

  /** The first write adds one live line, and one that owes if it is a recount. */
  lemma InsertKeepsBalance(store: Store, line: Line)
    requires Chained(store) && Balanced(store)
    requires line.id !in store && !Superseded(line)
    requires line.previous.Some? ==> line.previous.value in store && store[line.previous.value].place == line.place
    requires line.previous.Some? ==> store[line.previous.value].supersededBy != Some(line.id)
    requires line.previous.None? ==> NoneLiveAt(store, line.place)
    ensures Balanced(WithLine(store, line))
  {
    forall p: Place ensures BalancedAt(WithLine(store, line), p) {
      InsertLive(store, line, p);
      InsertOwing(store, line, p);
      assert BalancedAt(store, p);
      if line.previous.None? && line.place == p {
        assert LiveIds(store, p) == {};
      }
    }
  }

  lemma InsertOwing(store: Store, line: Line, p: Place)
    requires Chained(store) && line.id !in store
    requires line.previous.Some? ==> line.previous.value in store
    requires line.previous.Some? ==> store[line.previous.value].supersededBy != Some(line.id)
    ensures OwingIds(WithLine(store, line), p)
            == OwingIds(store, p) + if line.previous.Some? && line.place == p then {line.id} else {}
  {
    var after := WithLine(store, line);
    forall id | id in store ensures Owes(after, id) <==> Owes(store, id) {
      assert LinkOk(store, id);
    }
    assert Owes(after, line.id) <==> line.previous.Some?;
  }

  lemma RetireLive(store: Store, id: string, line: Line, p: Place)
    requires id in store
    ensures LiveIds(Retire(store, id, line), p) == LiveIds(store, p) - {id}
    ensures Occupied(Retire(store, id, line), p) <==> Occupied(store, p)
  {
    var after := Retire(store, id, line);
    assert forall m | m in store :: after[m].place == store[m].place && (m != id ==> after[m] == store[m]);
  }

  lemma RetireOwing(store: Store, id: string, line: Line, p: Place)
    requires Chained(store) && id in store && !Superseded(store[id])
    requires line.id in store && line.id != id && store[line.id].previous == Some(id)
    ensures OwingIds(Retire(store, id, line), p) == OwingIds(store, p) - {line.id}
  {
    var after := Retire(store, id, line);
    assert LinkOk(store, id);
    forall m | m in store ensures Owes(after, m) <==> Owes(store, m) && m != line.id {
      assert LinkOk(store, m);
    }
    assert forall m | m in store :: after[m].place == store[m].place;
  }

  /** The second write takes away the one live line, and the one that owes. */
  lemma RetireKeepsBalance(store: Store, id: string, line: Line)
    requires Chained(store) && Balanced(store)
    requires id in store && !Superseded(store[id])
    requires line.id in store && line.id != id && store[line.id].previous == Some(id)
    ensures Balanced(Retire(store, id, line))
  {
    assert LinkOk(store, id) && LinkOk(store, line.id);
    forall p: Place ensures BalancedAt(Retire(store, id, line), p) {
      assert BalancedAt(store, p);
      RetireLive(store, id, line, p);
      RetireOwing(store, id, line, p);
      if p == store[id].place {
        assert id in LiveIds(store, p) && line.id in OwingIds(store, p);
      } else {
        assert id !in LiveIds(store, p) && line.id !in OwingIds(store, p);
      }
    }
  }

  lemma InsertKeepsChained(store: Store, line: Line)
    requires Chained(store) && line.id !in store && line.id != "" && line.version >= 1 && Full(line.place)
    requires line.supersededBy.None? && !Superseded(line)
    requires match line.previous
             case None => line.iteration == 0
             case Some(p) => p in store && store[p].place == line.place && line.iteration == store[p].iteration + 1
                             && line.recountOf == Some(p)
    ensures Chained(WithLine(store, line))
  {
    var after := WithLine(store, line);
    forall id | id in after ensures LinkOk(after, id) {
      if id != line.id {
        assert LinkOk(store, id);
      }
    }
  }

  lemma RetireKeepsChained(store: Store, id: string, line: Line)
    requires Chained(store) && id in store
    requires line.id in store && line.id != id && store[line.id].previous == Some(id)
    requires !Superseded(store[id])
    ensures Chained(Retire(store, id, line))
  {
    var after := Retire(store, id, line);
    assert LinkOk(store, line.id);
    forall m | m in after ensures LinkOk(after, m) {
      assert LinkOk(store, m);
    }
  }

  // ---------------------------------------------------------------- what a request in flight knows

  /** A request between its location lock and its release. */
  predicate Critical(s: System, pid: nat) {
    pid in s.requests && !s.requests[pid].phase.Waiting?
  }

  /** Two requests whose new lines can only differ in their version. */
  predicate Alike(r: Request, q: Request) {
    StoredPlace(r) == StoredPlace(q) && TextOf(r.locationId) == TextOf(q.locationId)
    && r.barcode == q.barcode && r.quantity == q.quantity
  }

  /** The line is what the request would store under this version. */
  predicate SameCount(l: Line, r: Request, version: nat) {
    l.place == StoredPlace(r) && l.locationId == TextOf(r.locationId)
    && l.barcode == r.barcode && l.quantity == r.quantity && OrOne(l.version) == version
  }

  /** The request's line under this version would be refused. */
  predicate Blocked(store: Store, r: Request, version: nat) {
    exists id | id in store :: SameCount(store[id], r, version)
  }

  /** What the check found is stored, at the request's place, and is the line the request recounts. */
  predicate TargetKnown(store: Store, r: Request, t: Line) {
    && t.id in store && t.id != "" && store[t.id].place == StoredPlace(r)
    && store[t.id].iteration == t.iteration && r.recountOf == Some(t.id)
  }

  predicate InsertKnown(alike: bool, store: Store, r: Request, n: string, t: string) {
    && n in store && t in store && n != t && store[n].previous == Some(t) && store[n].place == StoredPlace(r)
    && store[n].locationId == TextOf(r.locationId)
    && LiveAt(store, t, StoredPlace(r))
    && if alike then SameCount(store[n], r, OrOne(store[t].version) + 1) else !Superseded(store[n])
  }

  /** What a request that will write has learned is still true. With `alike`, requests for one place may
      run beside it, but only such as are refused if theirs is stored first. */
  predicate Informed(alike: bool, store: Store, f: InFlight) {
    Complete(f.r) ==>
      match f.phase
      case Checked(None) => NoneLiveAt(store, StoredPlace(f.r)) || (alike && Blocked(store, f.r, 1))
      case Checked(Some(t)) =>
        && TargetKnown(store, f.r, t)
        && (LiveAt(store, t.id, StoredPlace(f.r)) || (alike && Blocked(store, f.r, OrOne(t.version) + 1)))
        && (alike ==> store[t.id].version == t.version)
      case Inserted(n, t) => InsertKnown(alike, store, f.r, n, t)
      case _ => true
  }

  ghost predicate AllInformed(alike: bool, store: Store, requests: map<nat, InFlight>) {
    forall pid | pid in requests :: Informed(alike, store, requests[pid])
  }

  predicate OwnInserts(requests: map<nat, InFlight>) {
    && (forall p | p in requests && requests[p].phase.Inserted? :: Complete(requests[p].r))
    && forall p, q | p in requests && q in requests && p != q
                     && requests[p].phase.Inserted? && requests[q].phase.Inserted? ::
         requests[p].phase.id != requests[q].phase.id
  }

  ghost predicate StoreInv(store: Store) {
    Chained(store) && Balanced(store) && UniquePrints(store)
  }

  ghost predicate Inv(alike: bool, s: System) {
    && StoreInv(s.store)
    && OwnInserts(s.requests)
    && AllInformed(alike, s.store, s.requests)
  }

  /** Requests that are between lock and release for one place: none, or only such as are alike. */
  predicate CanMeet(alike: bool, r: Request, q: Request) {
    Complete(r) && Complete(q) && StoredPlace(r) == StoredPlace(q) ==> alike && Alike(r, q)
  }

  ghost predicate Separate(alike: bool, s: System) {
    forall p, q | Critical(s, p) && Critical(s, q) && p != q :: CanMeet(alike, s.requests[p].r, s.requests[q].r)
  }

  // ---------------------------------------------------------------- inserting

  /** What an accepted insert may rely on. */
  predicate Ready(store: Store, r: Request, target: Option<Line>) {
    match target
    case None => NoneLiveAt(store, StoredPlace(r))
    case Some(t) => TargetKnown(store, r, t) && LiveAt(store, t.id, StoredPlace(r))
  }

  lemma BlockedClashes(store: Store, r: Request, newId: string, target: Option<Line>)
    requires newId !in store
    ensures var line := NewLine(r, newId, target);
            Blocked(store, r, OrOne(line.version)) ==> Clashes(store, line)
  {
  }

  lemma AcceptedIsReady(alike: bool, s: System, pid: nat, newId: string)
    requires Inv(alike, s) && Enabled(s, Insert(pid, newId))
    requires var f := s.requests[pid];
             Insertable(s.store, f.r, NewLine(f.r, newId, f.phase.target), f.phase.target)
    ensures Ready(s.store, s.requests[pid].r, s.requests[pid].phase.target)
  {
    var f := s.requests[pid];
    assert Informed(alike, s.store, f);
    BlockedClashes(s.store, f.r, newId, f.phase.target);
  }

  lemma InsertKeepsStore(store: Store, r: Request, newId: string, target: Option<Line>)
    requires StoreInv(store) && newId !in store && newId != "" && Ready(store, r, target)
    requires Insertable(store, r, NewLine(r, newId, target), target)
    ensures StoreInv(WithLine(store, NewLine(r, newId, target)))
  {
    var line := NewLine(r, newId, target);
    if target.Some? {
      assert LinkOk(store, target.value.id);
    }
    InsertKeepsChained(store, line);
    InsertKeepsBalance(store, line);
    forall a | a in store ensures Print(store[a]) != Print(line) {
      assert a != line.id;
    }
  }

  /** The balance of an empty place: no line was ever counted there. */
  lemma NoneLiveIsEmpty(store: Store, p: Place)
    requires Balanced(store) && NoneLiveAt(store, p)
    ensures !Occupied(store, p)
  {
    assert BalancedAt(store, p) && LiveIds(store, p) == {};
  }

  lemma BlockedStays(store: Store, line: Line, r: Request, version: nat)
    requires Blocked(store, r, version) && line.id !in store
    ensures Blocked(WithLine(store, line), r, version)
  {
    var id :| id in store && SameCount(store[id], r, version);
    assert WithLine(store, line)[id] == store[id];
  }

  /** What another request knows after an insert. */
  lemma InsertInforms(alike: bool, store: Store, r: Request, newId: string, target: Option<Line>, f: InFlight)
    requires StoreInv(store) && newId !in store && Ready(store, r, target)
    requires Complete(r) && CanMeet(alike, r, f.r) && Informed(alike, store, f)
    ensures Informed(alike, WithLine(store, NewLine(r, newId, target)), f)
  {
    var line := NewLine(r, newId, target);
    var after := WithLine(store, line);
    if Complete(f.r) {
      match f.phase
      case Checked(None) =>
        if alike && Blocked(store, f.r, 1) {
          BlockedStays(store, line, f.r, 1);
        } else if StoredPlace(f.r) == StoredPlace(r) {
          NoneLiveIsEmpty(store, StoredPlace(f.r));
          assert target.None?;
          assert SameCount(after[newId], f.r, 1);
        }
      case Checked(Some(t)) =>
        if alike && Blocked(store, f.r, OrOne(t.version) + 1) {
          BlockedStays(store, line, f.r, OrOne(t.version) + 1);
        }
      case _ =>
    }
  }

  // ---------------------------------------------------------------- superseding

  lemma RetireKeepsStore(store: Store, t: string, line: Line)
    requires StoreInv(store) && t in store && !Superseded(store[t])
    requires line.id in store && line.id != t && store[line.id].previous == Some(t)
    requires !Clashes(store, Retired(store[t], line))
    ensures StoreInv(Retire(store, t, line))
  {
    RetireKeepsChained(store, t, line);
    RetireKeepsBalance(store, t, line);
    assert LinkOk(store, t);
  }

  /** Superseding moves the old line to the new one's location, so what blocks an alike request stays. */
  lemma BlockedAfterRetire(store: Store, t: string, line: Line, r: Request, version: nat)
    requires Blocked(store, r, version) && t in store
    requires store[t].place == StoredPlace(r) ==> line.locationId == TextOf(r.locationId)
    ensures Blocked(Retire(store, t, line), r, version)
  {
    var id :| id in store && SameCount(store[id], r, version);
    assert SameCount(Retire(store, t, line)[id], r, version);
  }

  /** Two alike recounts of one line would have one fingerprint. */
  lemma RecountsOfOneLine(store: Store, r: Request, n: string, f: InFlight, t: string)
    requires Alike(r, f.r) && f.phase.Inserted? && Complete(f.r)
    requires InsertKnown(true, store, r, n, t) && Informed(true, store, f)
    ensures f.phase.id in store && (f.phase.targetId == t ==> Print(store[n]) == Print(store[f.phase.id]))
  {
  }

  lemma RetireInformsNew(alike: bool, store: Store, r: Request, n: string, t: string, f: InFlight)
    requires n in store && InsertKnown(alike, store, r, n, t)
    requires Complete(r) && CanMeet(alike, r, f.r) && Informed(alike, store, f) && f.phase == Checked(None)
    ensures Informed(alike, Retire(store, t, store[n]), f)
  {
    var after := Retire(store, t, store[n]);
    if Complete(f.r) {
      if alike && Blocked(store, f.r, 1) {
        BlockedAfterRetire(store, t, store[n], f.r, 1);
      } else {
        assert forall id | id in after :: LiveAt(after, id, StoredPlace(f.r)) ==> LiveAt(store, id, StoredPlace(f.r));
      }
    }
  }

  lemma RetireInformsRecount(alike: bool, store: Store, r: Request, n: string, t: string, f: InFlight)
    requires n in store && InsertKnown(alike, store, r, n, t)
    requires Complete(r) && CanMeet(alike, r, f.r) && Informed(alike, store, f)
    requires f.phase.Checked? && f.phase.target.Some?
    ensures Informed(alike, Retire(store, t, store[n]), f)
  {
    var u := f.phase.target.value;
    if Complete(f.r) {
      assert alike && u.id == t ==> SameCount(store[n], f.r, OrOne(u.version) + 1);
      if alike && Blocked(store, f.r, OrOne(u.version) + 1) {
        BlockedAfterRetire(store, t, store[n], f.r, OrOne(u.version) + 1);
      }
    }
  }

  /** What another request knows after a superseding. */
  lemma RetireInforms(alike: bool, store: Store, r: Request, n: string, t: string, f: InFlight)
    requires StoreInv(store) && InsertKnown(alike, store, r, n, t)
    requires Complete(r) && CanMeet(alike, r, f.r) && Informed(alike, store, f)
    requires f.phase.Inserted? ==> f.phase.id != n
    ensures Informed(alike, Retire(store, t, store[n]), f)
  {
    match f.phase
    case Checked(None) => RetireInformsNew(alike, store, r, n, t, f);
    case Checked(Some(_)) => RetireInformsRecount(alike, store, r, n, t, f);
    case Inserted(_, _) =>
      if Complete(f.r) && StoredPlace(f.r) == StoredPlace(r) {
        RecountsOfOneLine(store, r, n, f, t);
      }
    case _ =>
  }

  // ---------------------------------------------------------------- every step

  /** The request's check settles what it has to know. */
  predicate Checkable(alike: bool, store: Store, r: Request) {
    Complete(r) ==>
      PlacesAgree(r) || (alike && (Blocked(store, r, 1) || !Occupied(store, StoredPlace(r))))
  }

  /** A complete request that looks elsewhere looks where no line is stored. */
  lemma LooksInVain(store: Store, r: Request, id: string)
    requires Chained(store) && Complete(r) && LiveAt(store, id, FilterPlace(r))
    ensures PlacesAgree(r)
  {
    assert LinkOk(store, id);
  }

  lemma CheckInforms(alike: bool, store: Store, r: Request, found: Option<string>, session: nat)
    requires Chained(store) && DuplicateLookup(store, r, found) && Checkable(alike, store, r)
    requires found.Some? ==> Reusable(r, store[found.value])
    ensures var target := if found.Some? then Some(store[found.value]) else None;
            Informed(alike, store, InFlight(r, Checked(target), session))
  {
    if found.Some? && Complete(r) {
      LooksInVain(store, r, found.value);
      assert LinkOk(store, found.value);
    }
  }

  lemma EndKeepsInv(alike: bool, s: System, pid: nat)
    requires Inv(alike, s) && pid in s.requests
    ensures Inv(alike, End(s, pid))
  {
    var after := End(s, pid);
    assert forall q | q in after.requests :: q in s.requests && after.requests[q] == s.requests[q];
  }

  /** A request moves on; nothing is stored. */
  lemma AdvanceKeepsInv(alike: bool, s: System, pid: nat, phase: Phase)
    requires Inv(alike, s) && pid in s.requests && !phase.Inserted?
    requires Informed(alike, s.store, s.requests[pid].(phase := phase))
    ensures Inv(alike, Advance(s, pid, phase))
  {
    var after := Advance(s, pid, phase);
    assert forall q | q in after.requests && q != pid :: after.requests[q] == s.requests[q];
  }

  lemma CheckKeepsInv(alike: bool, s: System, pid: nat, found: Option<string>)
    requires Inv(alike, s) && Enabled(s, Check(pid, found)) && Checkable(alike, s.store, s.requests[pid].r)
    ensures Inv(alike, Step(s, Check(pid, found)))
  {
    var f := s.requests[pid];
    if found.None? || Reusable(f.r, s.store[found.value]) {
      CheckInforms(alike, s.store, f.r, found, f.session);
      AdvanceKeepsInv(alike, s, pid, Step(s, Check(pid, found)).requests[pid].phase);
    } else {
      EndKeepsInv(alike, s, pid);
    }
  }

  /** Another request's place in the invariant after a write of this one. */
  lemma MayMeet(alike: bool, s: System, pid: nat, q: nat)
    requires Separate(alike, s) && Critical(s, pid) && q in s.requests && q != pid
    ensures s.requests[q].phase.Waiting? || CanMeet(alike, s.requests[pid].r, s.requests[q].r)
  {
    if !s.requests[q].phase.Waiting? {
      assert Critical(s, q);
    }
  }

  lemma InsertKeepsInv(alike: bool, s: System, pid: nat, newId: string)
    requires Inv(alike, s) && Separate(alike, s) && Enabled(s, Insert(pid, newId))
    ensures Inv(alike, Step(s, Insert(pid, newId)))
  {
    var f := s.requests[pid];
    var target := f.phase.target;
    var line := NewLine(f.r, newId, target);
    if !(SessionStands(s, f) && Insertable(s.store, f.r, line, target)) {
      EndKeepsInv(alike, s, pid);
    } else {
      AcceptedIsReady(alike, s, pid, newId);
      InsertKeepsStore(s.store, f.r, newId, target);
      var after := Step(s, Insert(pid, newId));
      assert after.store == WithLine(s.store, line);
      forall q | q in after.requests ensures Informed(alike, after.store, after.requests[q]) {
        if q != pid {
          MayMeet(alike, s, pid, q);
          if !s.requests[q].phase.Waiting? {
            InsertInforms(alike, s.store, f.r, newId, target, s.requests[q]);
          }
        } else {
          InsertedIsKnown(alike, s.store, f, newId);
        }
      }
      NewInsertIsOwn(alike, s, pid, newId);
    }
  }

  lemma InsertedIsKnown(alike: bool, store: Store, f: InFlight, newId: string)
    requires newId !in store && f.phase.Checked? && Ready(store, f.r, f.phase.target) && Informed(alike, store, f)
    requires Insertable(store, f.r, NewLine(f.r, newId, f.phase.target), f.phase.target)
    ensures var target := f.phase.target;
            target.Some? ==>
              InsertKnown(alike, WithLine(store, NewLine(f.r, newId, target)), f.r, newId, target.value.id)
  {
  }

  lemma NewInsertIsOwn(alike: bool, s: System, pid: nat, newId: string)
    requires Inv(alike, s) && Enabled(s, Insert(pid, newId)) && Complete(s.requests[pid].r)
    ensures OwnInserts(Step(s, Insert(pid, newId)).requests)
  {
    var after := Step(s, Insert(pid, newId));
    forall q | q in s.requests && s.requests[q].phase.Inserted? ensures s.requests[q].phase.id != newId {
      assert Informed(alike, s.store, s.requests[q]);
    }
    assert forall q | q in after.requests && q != pid :: after.requests[q] == s.requests[q];
  }

  lemma SupersedeKeepsInv(alike: bool, s: System, pid: nat)
    requires Inv(alike, s) && Separate(alike, s) && Enabled(s, Supersede(pid))
    ensures Inv(alike, Step(s, Supersede(pid)))
  {
    var f := s.requests[pid];
    if !Retirable(s, f) {
      EndKeepsInv(alike, s, pid);
    } else {
      var n, t := f.phase.id, f.phase.targetId;
      assert Informed(alike, s.store, f);
      assert LinkOk(s.store, n);
      RetireKeepsStore(s.store, t, s.store[n]);
      var after := Step(s, Supersede(pid));
      forall q | q in after.requests ensures Informed(alike, after.store, after.requests[q]) {
        if q != pid {
          MayMeet(alike, s, pid, q);
          if !s.requests[q].phase.Waiting? {
            RetireInforms(alike, s.store, f.r, n, t, s.requests[q]);
          }
        }
      }
      assert forall q | q in after.requests && q != pid :: after.requests[q] == s.requests[q];
    }
  }

  /** The change leaves every line's identity, place, location, links and liveness alone. */
  predicate SameShape(store: Store, after: Store) {
    && store.Keys == after.Keys
    && forall id | id in store ::
         var l, m := store[id], after[id];
         && l.id == m.id && l.place == m.place && l.locationId == m.locationId && l.iteration == m.iteration
         && l.previous == m.previous && l.recountOf == m.recountOf && l.supersededBy == m.supersededBy
         && l.version <= m.version && (Superseded(l) <==> Superseded(m))
  }

  lemma SameShapeKeepsBalance(store: Store, after: Store)
    requires SameShape(store, after) && Chained(store) && Balanced(store)
    ensures Chained(after) && Balanced(after)
  {
    forall id | id in after ensures LinkOk(after, id) {
      assert LinkOk(store, id);
    }
    forall p: Place ensures BalancedAt(after, p) {
      assert BalancedAt(store, p);
      assert LiveIds(after, p) == LiveIds(store, p);
      assert OwingIds(after, p) == OwingIds(store, p);
      assert forall id | id in store :: after[id].place == store[id].place;
    }
  }

  /** Fingerprints may have changed only where they block nothing. */
  lemma SameShapeKeepsInformed(alike: bool, store: Store, after: Store, f: InFlight)
    requires SameShape(store, after) && Informed(alike, store, f)
    requires alike ==> forall id | id in store ::
               Print(after[id]) == Print(store[id]) && after[id].version == store[id].version
    ensures Informed(alike, after, f)
  {
    assert forall id | id in after :: LiveAt(after, id, StoredPlace(f.r)) <==> LiveAt(store, id, StoredPlace(f.r));
    assert alike ==> forall version | Blocked(store, f.r, version) :: Blocked(after, f.r, version) by {
      forall version | alike && Blocked(store, f.r, version) ensures Blocked(after, f.r, version) {
        var id :| id in store && SameCount(store[id], f.r, version);
        assert Print(after[id]) == Print(store[id]) && SameCount(after[id], f.r, version);
      }
    }
  }

  lemma SameShapeKeepsInv(alike: bool, s: System, after: Store)
    requires Inv(alike, s) && SameShape(s.store, after) && UniquePrints(after)
    requires alike ==> forall id | id in s.store ::
               Print(after[id]) == Print(s.store[id]) && after[id].version == s.store[id].version
    ensures Inv(alike, s.(store := after))
  {
    SameShapeKeepsBalance(s.store, after);
    forall pid | pid in s.requests ensures Informed(alike, after, s.requests[pid]) {
      SameShapeKeepsInformed(alike, s.store, after, s.requests[pid]);
    }
  }

  lemma SamePrintsStayUnique(store: Store, after: Store)
    requires UniquePrints(store) && store.Keys == after.Keys
    requires forall id | id in store :: Print(after[id]) == Print(store[id])
    ensures UniquePrints(after)
  {
  }

  /** A superseded line stays superseded whatever its status becomes. */
  lemma StatusKeepsShape(store: Store, id: string, status: LineStatus)
    requires Chained(store) && id in store && !status.SupersededLine?
    ensures SameShape(store, WithStatus(store, id, status))
    ensures forall m | m in store ::
              Print(WithStatus(store, id, status)[m]) == Print(store[m])
              && WithStatus(store, id, status)[m].version == store[m].version
  {
    assert LinkOk(store, id);
  }

  lemma EditKeepsShape(store: Store, id: string, quantity: real)
    requires Chained(store) && id in store
    ensures SameShape(store, WithQuantity(store, id, quantity))
  {
    assert LinkOk(store, id);
  }

  lemma EditKeepsUnique(store: Store, id: string, quantity: real)
    requires UniquePrints(store) && id in store && store[id].id == id
    requires !Clashes(store, WithQuantity(store, id, quantity)[id])
    ensures UniquePrints(WithQuantity(store, id, quantity))
  {
    assert forall m | m in store && m != id :: Print(store[m]) != Print(WithQuantity(store, id, quantity)[id]);
  }

  /** As long as requests past their locks for one place are alike, and then nothing is edited, or as long
      as there is at most one of them, every step keeps the invariant, whether writes succeed or fail. */
  lemma StepKeepsInv(alike: bool, s: System, ev: Event)
    requires Inv(alike, s) && Separate(alike, s) && Enabled(s, ev)
    requires alike ==> !ev.EditQuantity?
    requires ev.Check? ==> Checkable(alike, s.store, s.requests[ev.pid].r)
    ensures Inv(alike, Step(s, ev))
  {
    match ev
    case Arrive(pid, r, session) => ArriveKeepsInv(alike, s, pid, r, session);
    case AcquireLocation(pid) => AcquireKeepsInv(alike, s, pid);
    case Check(pid, found) => CheckKeepsInv(alike, s, pid, found);
    case Insert(pid, newId) => InsertKeepsInv(alike, s, pid, newId);
    case Supersede(pid) => SupersedeKeepsInv(alike, s, pid);
    case Release(pid) => EndKeepsInv(alike, s, pid);
    case SetStatus(id, status) =>
      StatusKeepsShape(s.store, id, status);
      SamePrintsStayUnique(s.store, WithStatus(s.store, id, status));
      SameShapeKeepsInv(alike, s, WithStatus(s.store, id, status));
    case EditQuantity(id, quantity) =>
      assert LinkOk(s.store, id);
      EditKeepsShape(s.store, id, quantity);
      EditKeepsUnique(s.store, id, quantity);
      SameShapeKeepsInv(alike, s, WithQuantity(s.store, id, quantity));
    case Touch(_) =>
  }

  lemma ArriveKeepsInv(alike: bool, s: System, pid: nat, r: Request, session: nat)
    requires Inv(alike, s) && Enabled(s, Arrive(pid, r, session))
    ensures Inv(alike, Step(s, Arrive(pid, r, session)))
  {
    var after := Step(s, Arrive(pid, r, session));
    assert forall q | q in after.requests && q != pid :: q in s.requests && after.requests[q] == s.requests[q];
    assert pid in after.requests ==> after.requests[pid].phase == Waiting;
  }

  lemma AcquireKeepsInv(alike: bool, s: System, pid: nat)
    requires Inv(alike, s) && Enabled(s, AcquireLocation(pid))
    ensures Inv(alike, Step(s, AcquireLocation(pid)))
  {
    var after := Step(s, AcquireLocation(pid));
    assert forall q | q in after.requests && q != pid :: q in s.requests && after.requests[q] == s.requests[q];
    assert pid in after.requests ==> after.requests[pid].phase == Holding;
  }

  // ---------------------------------------------------------------- a discipline that keeps requests apart

  /** Requests in flight for one place compete for one location lock, and no user asks for a location
      lock that user already holds. */
  predicate Disciplined(s: System, ev: Event) {
    match ev
    case Arrive(_, r, _) => PlacesAgree(r) && SharesLockPerPlace(s, r)
    case AcquireLocation(pid) =>
      pid in s.requests ==>
        (var r := s.requests[pid].r;
         LocationLock(r) in s.locks ==> s.locks[LocationLock(r)] != r.owner)
    case _ => true
  }

  predicate SameLockIfSamePlace(r: Request, q: Request) {
    StoredPlace(r) == StoredPlace(q) ==> LocationLock(r) == LocationLock(q)
  }

  predicate SharesLockPerPlace(s: System, r: Request) {
    forall pid | pid in s.requests :: SameLockIfSamePlace(s.requests[pid].r, r)
  }

  predicate AllDisciplined(events: seq<Event>) {
    events == [] ||
    (AllDisciplined(events[..|events| - 1]) && Disciplined(Run(events[..|events| - 1]), events[|events| - 1]))
  }

  ghost predicate Agreeing(s: System) {
    forall pid | pid in s.requests :: PlacesAgree(s.requests[pid].r)
  }

  /** Requests in flight for one place compete for one location lock. */
  ghost predicate OneLockPerPlace(s: System) {
    forall p, q | p in s.requests && q in s.requests :: SameLockIfSamePlace(s.requests[p].r, s.requests[q].r)
  }

  ghost predicate Exclusive(s: System) {
    && (forall pid | Critical(s, pid) ::
          LocationLock(s.requests[pid].r) in s.locks
          && s.locks[LocationLock(s.requests[pid].r)] == s.requests[pid].r.owner)
    && (forall p, q | Critical(s, p) && Critical(s, q) && p != q ::
          LocationLock(s.requests[p].r) != LocationLock(s.requests[q].r))
  }

  /** Requests in flight are those from before, and the one that arrived. */
  lemma InFlightAfter(s: System, ev: Event, pid: nat)
    requires Enabled(s, ev) && pid in Step(s, ev).requests
    ensures if pid in s.requests then Step(s, ev).requests[pid].r == s.requests[pid].r
            else ev.Arrive? && ev.pid == pid && Step(s, ev).requests[pid].r == ev.r
  {
  }

  lemma StepKeepsDiscipline(s: System, ev: Event)
    requires OneLockPerPlace(s) && Agreeing(s) && Enabled(s, ev) && Disciplined(s, ev)
    ensures OneLockPerPlace(Step(s, ev)) && Agreeing(Step(s, ev))
  {
    var after := Step(s, ev);
    forall p | p in after.requests ensures PlacesAgree(after.requests[p].r) {
      InFlightAfter(s, ev, p);
    }
    forall p, q | p in after.requests && q in after.requests
      ensures SameLockIfSamePlace(after.requests[p].r, after.requests[q].r)
    {
      InFlightAfter(s, ev, p);
      InFlightAfter(s, ev, q);
    }
  }

  lemma EndKeepsExclusive(s: System, pid: nat)
    requires Exclusive(s) && Critical(s, pid)
    ensures Exclusive(End(s, pid))
  {
    var after := End(s, pid);
    assert forall q | q in after.requests :: q in s.requests && after.requests[q] == s.requests[q];
    assert forall q | Critical(after, q) :: Critical(s, q) && q != pid;
  }

  /** The lock map is as it was, and so are the requests inside. */
  lemma SameLocksKeepExclusive(s: System, after: System)
    requires Exclusive(s) && after.locks == s.locks
    requires forall q | Critical(after, q) :: Critical(s, q) && after.requests[q].r == s.requests[q].r
    ensures Exclusive(after)
  {
  }

  lemma ArriveKeepsExclusive(s: System, pid: nat, r: Request, session: nat)
    requires Exclusive(s) && Enabled(s, Arrive(pid, r, session))
    ensures Exclusive(Step(s, Arrive(pid, r, session)))
  {
    var after := Step(s, Arrive(pid, r, session));
    assert forall q | q in after.requests && q != pid :: q in s.requests && after.requests[q] == s.requests[q];
    assert forall q :: Critical(after, q) <==> Critical(s, q);
  }

  /** A lock that is granted to a disciplined request was free, so no one else is inside. */
  lemma AcquireKeepsExclusive(s: System, pid: nat)
    requires Exclusive(s) && Enabled(s, AcquireLocation(pid)) && Disciplined(s, AcquireLocation(pid))
    ensures Exclusive(Step(s, AcquireLocation(pid)))
  {
    var after := Step(s, AcquireLocation(pid));
    assert forall q | q in after.requests :: q in s.requests && after.requests[q].r == s.requests[q].r;
    assert forall q :: q != pid ==> (Critical(after, q) <==> Critical(s, q));
  }

  /** A request in its critical section either stays inside, and no lock changes, or ends. */
  lemma StaysOrEnds(s: System, ev: Event)
    requires (ev.Check? || ev.Insert? || ev.Supersede?) && Enabled(s, ev)
    ensures ev.pid in s.requests
    ensures var after := Step(s, ev);
            after == End(s, ev.pid)
            || (after.locks == s.locks && after.requests.Keys == s.requests.Keys
                && after.requests[ev.pid].r == s.requests[ev.pid].r && !after.requests[ev.pid].phase.Waiting?
                && forall q | q in s.requests && q != ev.pid :: after.requests[q] == s.requests[q])
  {
  }

  lemma InsideKeepsExclusive(s: System, ev: Event)
    requires Exclusive(s) && Enabled(s, ev) && (ev.Check? || ev.Insert? || ev.Supersede?)
    ensures Exclusive(Step(s, ev))
  {
    StaysOrEnds(s, ev);
    assert Critical(s, ev.pid);
    if Step(s, ev) == End(s, ev.pid) {
      EndKeepsExclusive(s, ev.pid);
    } else {
      SameLocksKeepExclusive(s, Step(s, ev));
    }
  }

  lemma StepKeepsExclusive(s: System, ev: Event)
    requires Exclusive(s) && Enabled(s, ev) && Disciplined(s, ev)
    ensures Exclusive(Step(s, ev))
  {
    match ev
    case Arrive(pid, r, session) => ArriveKeepsExclusive(s, pid, r, session);
    case AcquireLocation(pid) => AcquireKeepsExclusive(s, pid);
    case Release(pid) => EndKeepsExclusive(s, pid);
    case Check(_, _) => InsideKeepsExclusive(s, ev);
    case Insert(_, _) => InsideKeepsExclusive(s, ev);
    case Supersede(_) => InsideKeepsExclusive(s, ev);
    case _ => SameLocksKeepExclusive(s, Step(s, ev));
  }

  lemma ExclusiveIsSeparate(s: System)
    requires Exclusive(s) && OneLockPerPlace(s)
    ensures Separate(false, s)
  {
  }

  /** Over every interleaving of count and recount requests, with supervisors changing statuses,
      quantities being edited, sessions being written and writes failing in between, in which requests
      for one place name its floor and rack by the same ids and no user competes with itself for a
      location lock: at every place that was counted there is one live line, and one more for every
      recount that has been stored and has not superseded its target. */
  lemma {:induction false} InterleavingsKeepChains(events: seq<Event>)
    requires Possible(events) && AllDisciplined(events)
    ensures var s := Run(events);
            Inv(false, s) && Agreeing(s) && OneLockPerPlace(s) && Exclusive(s) && Separate(false, s)
  {
    if events != [] {
      var s := Run(events[..|events| - 1]);
      InterleavingsKeepChains(events[..|events| - 1]);
      StepKeepsInv(false, s, events[|events| - 1]);
      StepKeepsDiscipline(s, events[|events| - 1]);
      StepKeepsExclusive(s, events[|events| - 1]);
    } else {
      IdleIsBalanced();
    }
    ExclusiveIsSeparate(Run(events));
  }

  lemma IdleIsBalanced()
    ensures Balanced(IDLE.store)
  {
    forall p: Place ensures BalancedAt(IDLE.store, p) {
      assert LiveIds(IDLE.store, p) == {} && OwingIds(IDLE.store, p) == {};
    }
  }

  /** So there is one live line per place, with inverse links, exactly when every stored recount has
      superseded its target. */
  lemma OneLiveIffNothingOwed(events: seq<Event>)
    requires Possible(events) && AllDisciplined(events)
    ensures var store := Run(events).store;
            && (OneLivePerPlace(store) <==> NothingOwed(store))
            && (OneLivePerPlace(store) && Linked(store) <==> NothingOwed(store))
  {
    InterleavingsKeepChains(events);
    SettledIff(Run(events).store);
  }

  /** Everything owed at a place is owed by a request still in flight. */
  ghost predicate OwedInFlight(s: System, p: Place) {
    forall id | id in OwingIds(s.store, p) :: exists pid :: InsertedBy(s, pid, id)
  }

  predicate InsertedBy(s: System, pid: nat, id: string) {
    pid in s.requests && s.requests[pid].phase.Inserted? && s.requests[pid].phase.id == id
  }

  /** At most one request at a place is between its two writes. */
  lemma OneOwerPerPlace(s: System, p: nat, q: nat)
    requires Inv(false, s) && Separate(false, s)
    requires p in s.requests && q in s.requests && s.requests[p].phase.Inserted? && s.requests[q].phase.Inserted?
    requires StoredPlace(s.requests[p].r) == StoredPlace(s.requests[q].r)
    ensures p == q
  {
    assert Critical(s, p) && Critical(s, q);
  }

  /** Everything owed at a place is owed by one request. */
  lemma SoleOwer(s: System, p: Place) returns (pid: nat)
    requires Inv(false, s) && Separate(false, s) && OwedInFlight(s, p) && OwingIds(s.store, p) != {}
    ensures pid in s.requests && s.requests[pid].phase.Inserted?
    ensures OwingIds(s.store, p) == {s.requests[pid].phase.id}
    ensures {s.requests[pid].phase.id, s.requests[pid].phase.targetId} <= LiveIds(s.store, p)
    ensures s.requests[pid].phase.id != s.requests[pid].phase.targetId
  {
    var n :| n in OwingIds(s.store, p);
    pid :| InsertedBy(s, pid, n);
    assert Informed(false, s.store, s.requests[pid]);
    forall m | m in OwingIds(s.store, p) ensures m == n {
      var q: nat :| InsertedBy(s, q, m);
      assert Informed(false, s.store, s.requests[q]);
      OneOwerPerPlace(s, pid, q);
    }
    assert OwingIds(s.store, p) == {n};
  }

  lemma LiveBesideOwing(store: Store, p: Place, a: string, b: string)
    requires Balanced(store) && LiveAt(store, a, p) && LiveAt(store, b, p) && a != b
    ensures OwingIds(store, p) != {} && |LiveIds(store, p)| == |OwingIds(store, p)| + 1
  {
    assert BalancedAt(store, p);
    assert store[a].place == p;
    TwoLive(store, a, b, p);
  }

  lemma PairBeside(s: System, p: Place, a: string, b: string)
    requires Inv(false, s) && Separate(false, s) && OwedInFlight(s, p)
    requires LiveAt(s.store, a, p) && LiveAt(s.store, b, p) && a != b
    ensures exists pid :: OwnPair(s, pid, a, b)
  {
    LiveBesideOwing(s.store, p, a, b);
    var pid := SoleOwer(s, p);
    PairIsWhole(LiveIds(s.store, p), s.requests[pid].phase.id, s.requests[pid].phase.targetId, a, b);
    assert OwnPair(s, pid, a, b);
  }

  /** While no recount has failed between its two writes, the only extra live line at a place is a new
      line beside its own target, and its request is still in flight. */
  lemma OnlyOwnTargetBeside(events: seq<Event>, p: Place, a: string, b: string)
    requires Possible(events) && AllDisciplined(events) && OwedInFlight(Run(events), p)
    requires LiveAt(Run(events).store, a, p) && LiveAt(Run(events).store, b, p) && a != b
    ensures exists pid :: OwnPair(Run(events), pid, a, b)
  {
    InterleavingsKeepChains(events);
    PairBeside(Run(events), p, a, b);
  }

  lemma PairIsWhole(s: set<string>, n: string, t: string, a: string, b: string)
    requires {n, t} <= s && {a, b} <= s && |s| == 2 && n != t && a != b
    ensures {a, b} == {n, t}
  {
    assert |s - {n, t}| == 0 && |s - {a, b}| == 0;
    assert s == {n, t} && s == {a, b};
  }

  /** One of the lines is what the request has stored, the other the target it has yet to supersede. */
  predicate OwnPair(s: System, pid: nat, a: string, b: string) {
    && pid in s.requests && s.requests[pid].phase.Inserted?
    && {a, b} == {s.requests[pid].phase.id, s.requests[pid].phase.targetId}
  }

  // ---------------------------------------------------------------- a recount that fails in between

  /** Nobody in flight will still supersede the target of this line. */
  ghost predicate Stranded(s: System, id: string) {
    id in s.store && Owes(s.store, id) && forall pid :: !InsertedBy(s, pid, id)
  }

  /** Only its own request supersedes a recount's target for it. */
  lemma StillOwes(s: System, ev: Event, id: string)
    requires Chained(s.store) && Enabled(s, ev) && id in s.store && Owes(s.store, id)
    requires ev.Supersede? ==> !InsertedBy(s, ev.pid, id)
    ensures id in Step(s, ev).store && Owes(Step(s, ev).store, id)
  {
    assert LinkOk(s.store, id);
    var p := s.store[id].previous.value;
    OthersKeepTheirLinks(s, ev, id);
    OthersKeepTheirLinks(s, ev, p);
  }

  /** What one step does to a stored line's links. */
  lemma OthersKeepTheirLinks(s: System, ev: Event, id: string)
    requires Enabled(s, ev) && id in s.store
    ensures id in Step(s, ev).store && Step(s, ev).store[id].previous == s.store[id].previous
    ensures Step(s, ev).store[id].supersededBy == s.store[id].supersededBy
            || (ev.Supersede? && s.requests[ev.pid].phase.id in s.store
                && Step(s, ev).store[id].supersededBy == Some(s.store[s.requests[ev.pid].phase.id].id))
  {
  }

  lemma StillNotInserted(s: System, ev: Event, id: string, pid: nat)
    requires Enabled(s, ev) && id in s.store && !InsertedBy(s, pid, id)
    ensures !InsertedBy(Step(s, ev), pid, id)
  {
  }

  /** A recount whose second write failed owes it for good. */
  lemma StrandedStays(s: System, ev: Event, id: string)
    requires Chained(s.store) && Enabled(s, ev) && Stranded(s, id)
    ensures Stranded(Step(s, ev), id)
  {
    if ev.Supersede? {
      assert !InsertedBy(s, ev.pid, id);
    }
    StillOwes(s, ev, id);
    forall pid ensures !InsertedBy(Step(s, ev), pid, id) {
      StillNotInserted(s, ev, id, pid);
    }
  }

  /** So from then on two lines are live at its place whenever nobody is counting there. */
  lemma {:induction false} FailedRecountStays(events: seq<Event>, k: nat, id: string)
    requires Possible(events) && AllDisciplined(events) && k <= |events|
    requires Stranded(Run(events[..k]), id)
    ensures Stranded(Run(events), id) && !OneLivePerPlace(Run(events).store)
  {
    if k == |events| {
      assert events[..k] == events;
    } else {
      var init := events[..|events| - 1];
      assert init[..k] == events[..k];
      FailedRecountStays(init, k, id);
      InterleavingsKeepChains(init);
      StrandedStays(Run(init), events[|events| - 1], id);
    }
    OneLiveIffNothingOwed(events);
  }

  // ---------------------------------------------------------------- requests whose ids are their numbers

  /** The ids a request gives for its floor and rack are the numbers, or absent. */
  predicate Coherent(r: Request) {
    && (if Truthy(r.floorNo) then Truthy(r.floorId) ==> r.floorId == r.floorNo else r.floorId.None?)
    && (if Truthy(r.rackNo) then Truthy(r.rackId) ==> r.rackId == r.rackNo else r.rackId.None?)
  }

  /** For a coherent request the three views of its location are one. */
  lemma CoherentViewsAgree(r: Request)
    requires Coherent(r)
    ensures StoredPlace(r) == FilterPlace(r)
    ensures var place := FilterPlace(r);
            LocationLock(r)
            == LocationKey(r.sessionId + ":" + r.itemCode + ":" + TextOf(place.floor) + ":" + TextOf(place.rack))
  {
  }

  ghost predicate AllCoherent(s: System) {
    forall pid | pid in s.requests :: Coherent(s.requests[pid].r)
  }

  /** Among coherent requests one place means one lock. */
  lemma CoherentArrivalIsDisciplined(s: System, pid: nat, r: Request, session: nat)
    requires AllCoherent(s) && Coherent(r)
    ensures Disciplined(s, Arrive(pid, r, session))
  {
    CoherentViewsAgree(r);
    forall q | q in s.requests ensures SameLockIfSamePlace(s.requests[q].r, r) {
      CoherentViewsAgree(s.requests[q].r);
    }
  }

  lemma StepKeepsCoherent(s: System, ev: Event)
    requires AllCoherent(s) && Enabled(s, ev) && (ev.Arrive? ==> Coherent(ev.r))
    ensures AllCoherent(Step(s, ev))
  {
    forall pid | pid in Step(s, ev).requests ensures Coherent(Step(s, ev).requests[pid].r) {
      InFlightAfter(s, ev, pid);
    }
  }

  /** Coherent requests, and no user competing with itself. */
  predicate CoherentEvents(events: seq<Event>) {
    events == [] ||
    (CoherentEvents(events[..|events| - 1])
     && match events[|events| - 1]
        case Arrive(_, r, _) => Coherent(r)
        case ev => Disciplined(Run(events[..|events| - 1]), ev))
  }

  /** In particular, requests whose ids are their numbers keep one lock per place. */
  lemma {:induction false} CoherentRequestsKeepChains(events: seq<Event>)
    requires Possible(events) && CoherentEvents(events)
    ensures AllDisciplined(events) && AllCoherent(Run(events)) && Inv(false, Run(events))
  {
    if events != [] {
      var s, ev := Run(events[..|events| - 1]), events[|events| - 1];
      CoherentRequestsKeepChains(events[..|events| - 1]);
      if ev.Arrive? {
        CoherentArrivalIsDisciplined(s, ev.pid, ev.r, ev.session);
      }
      StepKeepsCoherent(s, ev);
    }
    InterleavingsKeepChains(events);
  }

  // ---------------------------------------------------------------- what the links amount to

  /** k steps back along the previous links. */
  function Back(store: Store, id: string, k: nat): Option<string>
    decreases k
  {
    if id !in store then None
    else if k == 0 then Some(id)
    else match store[id].previous
         case None => None
         case Some(p) => Back(store, p, k - 1)
  }

  /** A line of iteration n has exactly n predecessors: each step back lowers the iteration by one,
      and the walk ends at a line of iteration zero. So no line precedes itself. */
  lemma {:induction false} ChainsAreAcyclic(store: Store, id: string, k: nat)
    requires Chained(store) && id in store
    ensures LinkOk(store, id)
    ensures Back(store, id, k).Some? <==> k <= store[id].iteration
    ensures k <= store[id].iteration ==>
              var a := Back(store, id, k).value;
              a in store && store[a].iteration == store[id].iteration - k && store[a].place == store[id].place
    ensures k > 0 ==> Back(store, id, k) != Some(id)
    decreases k
  {
    assert LinkOk(store, id);
    if k > 0 && store[id].previous.Some? {
      ChainsAreAcyclic(store, store[id].previous.value, k - 1);
    }
  }
}
