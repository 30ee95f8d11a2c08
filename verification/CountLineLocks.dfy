/** Exactly when locks, duplicate check and fingerprint keep one live line per place
    (backend/api/count_lines_routes.py, backend/services/locking/mongo_service.py,
    backend/services/count_lines/validation.py): the lock service grants a key again to the user who
    holds it, and that user's other request may release it. */
module CountLineLocks {
  import opened Common
  import opened CountLineChains
  import opened CountLineRuns

  // ---------------------------------------------------------------- the runs of given requests

  /** The requests that may be made; each may be repeated once it has ended. */
  type Requests = map<nat, Request>

  /** The event is the arrival of one of the requests, or no arrival, and no edit unless those may
      happen. */
  predicate Among(edits: bool, reqs: Requests, ev: Event) {
    match ev
    case Arrive(pid, r, _) => pid in reqs && reqs[pid] == r
    case EditQuantity(_, _) => edits
    case _ => true
  }

  predicate AllAmong(edits: bool, reqs: Requests, events: seq<Event>) {
    forall i | 0 <= i < |events| :: Among(edits, reqs, events[i])
  }

  /** Some interleaving of the requests leads here. */
  ghost predicate Reachable(edits: bool, reqs: Requests, s: System) {
    exists events :: RunTo(edits, reqs, events, s)
  }

  ghost predicate RunTo(edits: bool, reqs: Requests, events: seq<Event>, s: System) {
    Possible(events) && AllAmong(edits, reqs, events) && Run(events) == s
  }

  lemma IdleIsReachable(edits: bool, reqs: Requests)
    ensures Reachable(edits, reqs, IDLE)
  {
    assert RunTo(edits, reqs, [], IDLE);
  }

  lemma StepIsReachable(edits: bool, reqs: Requests, s: System, ev: Event)
    requires Reachable(edits, reqs, s) && Enabled(s, ev) && Among(edits, reqs, ev)
    ensures Reachable(edits, reqs, Step(s, ev))
  {
    var events :| RunTo(edits, reqs, events, s);
    assert (events + [ev])[..|events|] == events;
    assert RunTo(edits, reqs, events + [ev], Step(s, ev));
  }

  // ---------------------------------------------------------------- what guards the places

  function KeysOf(r: Request): set<Key> {
    {LocationLock(r)} + (if VariantLock(r).Some? then {VariantLock(r).value} else {})
  }

  /** No other request of this request's user needs the key. */
  predicate Sole(reqs: Requests, pid: nat, key: Key)
    requires pid in reqs
  {
    forall other | other in reqs && other != pid && reqs[other].owner == reqs[pid].owner :: key !in KeysOf(reqs[other])
  }

  predicate ProtectedBy(reqs: Requests, p: nat, q: nat, key: Key)
    requires p in reqs && q in reqs
  {
    key in KeysOf(reqs[p]) && key in KeysOf(reqs[q]) && Sole(reqs, p, key) && Sole(reqs, q, key)
  }

  /** Two users' requests need one key that neither user needs for anything else. */
  predicate Protected(reqs: Requests, p: nat, q: nat)
    requires p in reqs && q in reqs
  {
    reqs[p].owner != reqs[q].owner && exists key | key in KeysOf(reqs[p]) :: ProtectedBy(reqs, p, q, key)
  }

  /** Two requests that can both store a line at one place. */
  predicate Rivals(reqs: Requests, p: nat, q: nat) {
    && p in reqs && q in reqs && p != q
    && Complete(reqs[p]) && Complete(reqs[q]) && StoredPlace(reqs[p]) == StoredPlace(reqs[q])
  }

  /** The second of the two is refused if the first is stored as it was sent, or they look where they
      store and are kept apart. */
  predicate GuardedPair(edits: bool, reqs: Requests, p: nat, q: nat)
    requires p in reqs && q in reqs
  {
    || (!edits && Alike(reqs[p], reqs[q]))
    || (PlacesAgree(reqs[p]) && PlacesAgree(reqs[q]) && Protected(reqs, p, q))
  }

  ghost predicate Guarded(edits: bool, reqs: Requests) {
    && (edits ==> forall p | p in reqs && Complete(reqs[p]) :: PlacesAgree(reqs[p]))
    && forall p, q | Rivals(reqs, p, q) :: GuardedPair(edits, reqs, p, q)
  }

  // ---------------------------------------------------------------- keys that stay held

  /** The keys a request in flight has been granted. */
  function Taken(f: InFlight): set<Key> {
    if f.phase.Waiting? then KeysOf(f.r) - {LocationLock(f.r)} else KeysOf(f.r)
  }

  ghost predicate FromRequests(reqs: Requests, s: System) {
    forall pid | pid in s.requests :: pid in reqs && s.requests[pid].r == reqs[pid]
  }

  predicate HoldsSoleKeys(reqs: Requests, s: System, pid: nat)
    requires pid in reqs && pid in s.requests
  {
    forall key | key in Taken(s.requests[pid]) && Sole(reqs, pid, key) ::
      key in s.locks && s.locks[key] == reqs[pid].owner
  }

  ghost predicate SoleKeysHeld(reqs: Requests, s: System) {
    FromRequests(reqs, s) && forall pid | pid in s.requests :: HoldsSoleKeys(reqs, s, pid)
  }

  /** One request's release leaves alone what other users hold, and what this user needs only for
      another request. */
  lemma ReleaseKeepsKeys(reqs: Requests, s: System, pid: nat, q: nat)
    requires SoleKeysHeld(reqs, s) && pid in s.requests && q in s.requests && pid != q
    ensures HoldsSoleKeys(reqs, s.(locks := UnlockBoth(s.locks, s.requests[pid].r)), q)
  {
    var after := UnlockBoth(s.locks, s.requests[pid].r);
    assert HoldsSoleKeys(reqs, s, q);
    forall key | key in Taken(s.requests[q]) && Sole(reqs, q, key)
      ensures key in after && after[key] == reqs[q].owner
    {
      assert reqs[pid].owner == reqs[q].owner ==> key !in KeysOf(reqs[pid]);
    }
  }

  lemma EndKeepsSoleKeys(reqs: Requests, s: System, pid: nat)
    requires SoleKeysHeld(reqs, s) && pid in s.requests
    ensures SoleKeysHeld(reqs, End(s, pid))
  {
    var after := End(s, pid);
    forall q | q in after.requests ensures HoldsSoleKeys(reqs, after, q) {
      ReleaseKeepsKeys(reqs, s, pid, q);
    }
  }

  lemma ArriveKeepsSoleKeys(reqs: Requests, s: System, pid: nat, r: Request, session: nat)
    requires SoleKeysHeld(reqs, s) && Enabled(s, Arrive(pid, r, session)) && pid in reqs && reqs[pid] == r
    ensures SoleKeysHeld(reqs, Step(s, Arrive(pid, r, session)))
  {
    var after := Step(s, Arrive(pid, r, session));
    forall q | q in after.requests ensures HoldsSoleKeys(reqs, after, q) {
      if q in s.requests {
        assert HoldsSoleKeys(reqs, s, q);
      }
    }
  }

  lemma AcquireKeepsSoleKeys(reqs: Requests, s: System, pid: nat)
    requires SoleKeysHeld(reqs, s) && Enabled(s, AcquireLocation(pid))
    ensures SoleKeysHeld(reqs, Step(s, AcquireLocation(pid)))
  {
    var after := Step(s, AcquireLocation(pid));
    forall q | q in after.requests ensures HoldsSoleKeys(reqs, after, q) {
      assert HoldsSoleKeys(reqs, s, q);
    }
  }

  /** Moving on inside the critical section, or changing lines, touches no lock. */
  lemma OtherStepsKeepSoleKeys(reqs: Requests, s: System, after: System)
    requires SoleKeysHeld(reqs, s) && after.locks == s.locks && after.requests.Keys == s.requests.Keys
    requires forall q | q in s.requests ::
               after.requests[q].r == s.requests[q].r && Taken(after.requests[q]) == Taken(s.requests[q])
    ensures SoleKeysHeld(reqs, after)
  {
    forall q | q in after.requests ensures HoldsSoleKeys(reqs, after, q) {
      assert HoldsSoleKeys(reqs, s, q);
    }
  }

  lemma InsideKeepsSoleKeys(reqs: Requests, s: System, ev: Event)
    requires SoleKeysHeld(reqs, s) && Enabled(s, ev) && (ev.Check? || ev.Insert? || ev.Supersede?)
    ensures SoleKeysHeld(reqs, Step(s, ev))
  {
    var after := Step(s, ev);
    StaysOrEnds(s, ev);
    assert !s.requests[ev.pid].phase.Waiting?;
    if after == End(s, ev.pid) {
      EndKeepsSoleKeys(reqs, s, ev.pid);
    } else {
      OtherStepsKeepSoleKeys(reqs, s, after);
    }
  }

  lemma StepKeepsSoleKeys(edits: bool, reqs: Requests, s: System, ev: Event)
    requires SoleKeysHeld(reqs, s) && Enabled(s, ev) && Among(edits, reqs, ev)
    ensures SoleKeysHeld(reqs, Step(s, ev))
  {
    match ev
    case Arrive(pid, r, session) => ArriveKeepsSoleKeys(reqs, s, pid, r, session);
    case AcquireLocation(pid) => AcquireKeepsSoleKeys(reqs, s, pid);
    case Check(_, _) => InsideKeepsSoleKeys(reqs, s, ev);
    case Insert(_, _) => InsideKeepsSoleKeys(reqs, s, ev);
    case Supersede(_) => InsideKeepsSoleKeys(reqs, s, ev);
    case Release(pid) => EndKeepsSoleKeys(reqs, s, pid);
    case _ => OtherStepsKeepSoleKeys(reqs, s, Step(s, ev));
  }

  /** A key that protects two requests past their locks is held by both users at once. */
  lemma ProtectionExcludes(reqs: Requests, s: System, p: nat, q: nat)
    requires SoleKeysHeld(reqs, s) && Critical(s, p) && Critical(s, q)
    ensures !Protected(reqs, p, q)
  {
    forall key | key in KeysOf(reqs[p]) && ProtectedBy(reqs, p, q, key)
      ensures reqs[p].owner == reqs[q].owner
    {
      assert HoldsSoleKeys(reqs, s, p) && HoldsSoleKeys(reqs, s, q);
    }
  }

  lemma SoleKeysKeepSeparate(edits: bool, reqs: Requests, s: System)
    requires Guarded(edits, reqs) && SoleKeysHeld(reqs, s)
    ensures Separate(!edits, s)
  {
    forall p, q | Critical(s, p) && Critical(s, q) && p != q
      ensures CanMeet(!edits, s.requests[p].r, s.requests[q].r)
    {
      ProtectionExcludes(reqs, s, p, q);
      assert Rivals(reqs, p, q) ==> GuardedPair(edits, reqs, p, q);
    }
  }

  // ---------------------------------------------------------------- places a check cannot see

  /** Where a request looks elsewhere than it stores, either nothing is stored or what would refuse its
      first line is. */
  predicate FirstLineStands(store: Store, r: Request) {
    Complete(r) && !PlacesAgree(r) ==> !Occupied(store, StoredPlace(r)) || Blocked(store, r, 1)
  }

  ghost predicate FirstLinesStand(reqs: Requests, store: Store) {
    forall p | p in reqs :: FirstLineStands(store, reqs[p])
  }

  /** One who looks elsewhere is only guarded from requests like it. */
  lemma OnlyAlikeThere(reqs: Requests, p: nat, q: nat)
    requires Guarded(false, reqs) && p in reqs && q in reqs && Complete(reqs[p]) && Complete(reqs[q])
    requires !PlacesAgree(reqs[p]) && StoredPlace(reqs[p]) == StoredPlace(reqs[q])
    ensures Alike(reqs[q], reqs[p])
  {
    if p != q {
      assert Rivals(reqs, p, q);
      assert GuardedPair(false, reqs, p, q);
    }
  }

  lemma InsertKeepsFirstLine(reqs: Requests, s: System, pid: nat, newId: string, p: nat)
    requires Guarded(false, reqs) && Inv(true, s) && FromRequests(reqs, s) && Enabled(s, Insert(pid, newId))
    requires p in reqs && FirstLineStands(s.store, reqs[p])
    ensures FirstLineStands(Step(s, Insert(pid, newId)).store, reqs[p])
  {
    var f, r := s.requests[pid], reqs[p];
    var line := NewLine(f.r, newId, f.phase.target);
    if SessionStands(s, f) && Insertable(s.store, f.r, line, f.phase.target) && Complete(r) && !PlacesAgree(r) {
      var after := WithLine(s.store, line);
      InsertLive(s.store, line, StoredPlace(r));
      if Blocked(s.store, r, 1) {
        BlockedStays(s.store, line, r, 1);
      } else if line.place == StoredPlace(r) {
        AcceptedIsReady(true, s, pid, newId);
        OnlyAlikeThere(reqs, p, pid);
        assert SameCount(after[newId], r, 1);
      }
    }
  }

  lemma SupersedeKeepsFirstLine(reqs: Requests, s: System, pid: nat, p: nat)
    requires Guarded(false, reqs) && Inv(true, s) && FromRequests(reqs, s) && Enabled(s, Supersede(pid))
    requires p in reqs && FirstLineStands(s.store, reqs[p])
    ensures FirstLineStands(Step(s, Supersede(pid)).store, reqs[p])
  {
    var f, r := s.requests[pid], reqs[p];
    if Retirable(s, f) && Complete(r) && !PlacesAgree(r) {
      var line, t := s.store[f.phase.id], f.phase.targetId;
      assert Informed(true, s.store, f);
      RetireLive(s.store, t, line, StoredPlace(r));
      if Blocked(s.store, r, 1) {
        if s.store[t].place == StoredPlace(r) {
          OnlyAlikeThere(reqs, p, pid);
        }
        BlockedAfterRetire(s.store, t, line, r, 1);
      }
    }
  }

  lemma StatusKeepsFirstLine(store: Store, id: string, status: LineStatus, r: Request)
    requires id in store && FirstLineStands(store, r)
    ensures FirstLineStands(WithStatus(store, id, status), r)
  {
    var after := WithStatus(store, id, status);
    if Blocked(store, r, 1) {
      var m :| m in store && SameCount(store[m], r, 1);
      assert SameCount(after[m], r, 1);
    } else {
      assert forall m | m in after :: after[m].place == store[m].place;
    }
  }

  lemma StepKeepsFirstLines(reqs: Requests, s: System, ev: Event)
    requires Guarded(false, reqs) && Inv(true, s) && FromRequests(reqs, s)
    requires Enabled(s, ev) && !ev.EditQuantity? && FirstLinesStand(reqs, s.store)
    ensures FirstLinesStand(reqs, Step(s, ev).store)
  {
    forall p | p in reqs ensures FirstLineStands(Step(s, ev).store, reqs[p]) {
      assert FirstLineStands(s.store, reqs[p]);
      match ev
      case Insert(pid, newId) => InsertKeepsFirstLine(reqs, s, pid, newId, p);
      case Supersede(pid) => SupersedeKeepsFirstLine(reqs, s, pid, p);
      case SetStatus(id, status) => StatusKeepsFirstLine(s.store, id, status, reqs[p]);
      case _ =>
    }
  }

  // ---------------------------------------------------------------- guarded requests

  /** Over every interleaving of guarded requests, whatever fails, the chains are kept: one live line per
      place and one more for each recount that has not superseded its target. */
  lemma {:induction false} GuardedRunsKeepChains(edits: bool, reqs: Requests, events: seq<Event>)
    requires Guarded(edits, reqs) && Possible(events) && AllAmong(edits, reqs, events)
    ensures Inv(!edits, Run(events)) && SoleKeysHeld(reqs, Run(events))
    ensures !edits ==> FirstLinesStand(reqs, Run(events).store)
  {
    if events == [] {
      IdleIsBalanced();
    } else {
      var init, ev := events[..|events| - 1], events[|events| - 1];
      var s := Run(init);
      GuardedRunsKeepChains(edits, reqs, init);
      assert Among(edits, reqs, ev);
      SoleKeysKeepSeparate(edits, reqs, s);
      if ev.Check? {
        assert s.requests[ev.pid].r == reqs[ev.pid];
        assert !edits ==> FirstLineStands(s.store, reqs[ev.pid]);
      }
      StepKeepsInv(!edits, s, ev);
      StepKeepsSoleKeys(edits, reqs, s, ev);
      if !edits {
        StepKeepsFirstLines(reqs, s, ev);
      }
    }
  }

  // ---------------------------------------------------------------- what other requests can do

  function Locked(locks: map<Key, string>, r: Request): map<Key, string> {
    var first := if VariantLock(r).Some? then locks[VariantLock(r).value := r.owner] else locks;
    first[LocationLock(r) := r.owner]
  }

  predicate FreeFor(locks: map<Key, string>, keys: set<Key>, owner: string) {
    forall key | key in keys :: Granted(locks, key, owner)
  }

  lemma Arrives(edits: bool, reqs: Requests, s: System, p: nat) returns (after: System)
    requires Reachable(edits, reqs, s) && s.sessions == map[] && p in reqs && p !in s.requests
    requires FreeFor(s.locks, KeysOf(reqs[p]), reqs[p].owner)
    ensures Reachable(edits, reqs, after)
    ensures after == System(s.store, after.locks, s.requests[p := InFlight(reqs[p], Waiting, 0)], map[])
    ensures after.locks == match VariantLock(reqs[p])
                           case None => s.locks
                           case Some(key) => s.locks[key := reqs[p].owner]
  {
    StepIsReachable(edits, reqs, s, Arrive(p, reqs[p], 0));
    after := Step(s, Arrive(p, reqs[p], 0));
  }

  /** A waiting request whose location lock is free gets it. */
  lemma Acquires(edits: bool, reqs: Requests, s: System, p: nat) returns (after: System)
    requires Reachable(edits, reqs, s) && p in reqs && p in s.requests && s.requests[p] == InFlight(reqs[p], Waiting, 0)
    requires Granted(s.locks, LocationLock(reqs[p]), reqs[p].owner)
    ensures Reachable(edits, reqs, after)
    ensures after == System(s.store, s.locks[LocationLock(reqs[p]) := reqs[p].owner],
                            s.requests[p := InFlight(reqs[p], Holding, 0)], s.sessions)
  {
    StepIsReachable(edits, reqs, s, AcquireLocation(p));
    after := Step(s, AcquireLocation(p));
  }

  /** A waiting request enters and finds no line. */
  lemma Proceeds(edits: bool, reqs: Requests, s: System, p: nat) returns (after: System)
    requires Reachable(edits, reqs, s) && p in reqs && NoneLiveAt(s.store, FilterPlace(reqs[p]))
    requires p in s.requests && s.requests[p] == InFlight(reqs[p], Waiting, 0)
    requires Granted(s.locks, LocationLock(reqs[p]), reqs[p].owner)
    ensures Reachable(edits, reqs, after)
    ensures after == System(s.store, s.locks[LocationLock(reqs[p]) := reqs[p].owner],
                            s.requests[p := InFlight(reqs[p], Checked(None), 0)], s.sessions)
  {
    var s1 := Acquires(edits, reqs, s, p);
    StepIsReachable(edits, reqs, s1, Check(p, None));
    after := Step(s1, Check(p, None));
  }

  lemma Enters(edits: bool, reqs: Requests, s: System, p: nat) returns (after: System)
    requires Reachable(edits, reqs, s) && s.sessions == map[] && p in reqs && p !in s.requests
    requires NoneLiveAt(s.store, FilterPlace(reqs[p]))
    requires FreeFor(s.locks, KeysOf(reqs[p]), reqs[p].owner)
    ensures Reachable(edits, reqs, after)
    ensures after == System(s.store, Locked(s.locks, reqs[p]),
                            s.requests[p := InFlight(reqs[p], Checked(None), 0)], map[])
  {
    var s1 := Arrives(edits, reqs, s, p);
    after := Proceeds(edits, reqs, s1, p);
  }

  lemma UnlocksAll(locks: map<Key, string>, r: Request)
    requires forall key | key in locks :: locks[key] == r.owner
    ensures UnlockBoth(Locked(locks, r), r) == locks - KeysOf(r)
  {
    var rest := Unlock(Locked(locks, r), LocationLock(r), r.owner);
    assert rest == Locked(locks, r) - {LocationLock(r)};
  }

  /** While one user holds all the locks, another request of that user comes and goes, and its keys
      are free. */
  lemma Leaks(edits: bool, reqs: Requests, s: System, t: nat) returns (after: System)
    requires Reachable(edits, reqs, s) && s.sessions == map[] && t in reqs && t !in s.requests
    requires forall key | key in s.locks :: s.locks[key] == reqs[t].owner
    ensures Reachable(edits, reqs, after) && after == s.(locks := s.locks - KeysOf(reqs[t]))
  {
    var s1 := Arrives(edits, reqs, s, t);
    var s2 := Acquires(edits, reqs, s1, t);
    UnlocksAll(s.locks, reqs[t]);
    after := Leaves(edits, reqs, s2, t, Locked(s.locks, reqs[t]));
    assert after.requests == s.requests;
  }

  lemma Leaves(edits: bool, reqs: Requests, s: System, t: nat, locks: map<Key, string>) returns (after: System)
    requires Reachable(edits, reqs, s) && t in reqs && t in s.requests && s.requests[t].r == reqs[t]
    requires !s.requests[t].phase.Waiting? && s.locks == locks
    ensures Reachable(edits, reqs, after)
    ensures after == System(s.store, UnlockBoth(locks, reqs[t]), s.requests - {t}, s.sessions)
  {
    StepIsReachable(edits, reqs, s, Release(t));
    after := Step(s, Release(t));
  }

  /** A key of the one user holding locks is freed if another request of that user, not in flight,
      needs it. */
  lemma FreesKey(edits: bool, reqs: Requests, s: System, p: nat, key: Key) returns (after: System)
    requires Reachable(edits, reqs, s) && s.sessions == map[] && p in reqs && !Sole(reqs, p, key)
    requires forall k | k in s.locks :: s.locks[k] == reqs[p].owner
    requires forall other | other in s.requests && other in reqs && reqs[other].owner == reqs[p].owner :: other == p
    ensures Reachable(edits, reqs, after) && after == s.(locks := after.locks)
    ensures key !in after.locks && forall k | k in after.locks :: k in s.locks && after.locks[k] == s.locks[k]
  {
    var t :| t in reqs && t != p && reqs[t].owner == reqs[p].owner && key in KeysOf(reqs[t]);
    after := Leaks(edits, reqs, s, t);
  }

  /** The one stored line is edited, if that may happen. */
  lemma EditsOnly(edits: bool, reqs: Requests, s: System, id: string) returns (after: System)
    requires Reachable(edits, reqs, s) && s.store.Keys == {id} && s.store[id].id == id
    ensures Reachable(edits, reqs, after)
    ensures after == s.(store := if edits then WithQuantity(s.store, id, s.store[id].quantity) else s.store)
  {
    after := s;
    if edits {
      StepIsReachable(edits, reqs, s, EditQuantity(id, s.store[id].quantity));
      after := Step(s, EditQuantity(id, s.store[id].quantity));
    }
  }

  /** Two live lines at one place although nothing is owed. */
  predicate Doubled(store: Store) {
    NothingOwed(store) && !OneLivePerPlace(store)
  }

  /** A request past its check stores its line beside another live one. */
  lemma StoresSecond(edits: bool, reqs: Requests, s: System, p: nat, first: Line) returns (after: System)
    requires Reachable(edits, reqs, s) && s.sessions == map[] && p in reqs && Complete(reqs[p])
    requires p in s.requests && s.requests[p] == InFlight(reqs[p], Checked(None), 0)
    requires s.store == map["a" := first] && first.id == "a" && first.previous.None? && !Superseded(first)
    requires first.place == StoredPlace(reqs[p]) && Print(first) != Print(NewLine(reqs[p], "b", None))
    ensures Reachable(edits, reqs, after) && Doubled(after.store)
  {
    StepIsReachable(edits, reqs, s, Insert(p, "b"));
    after := Step(s, Insert(p, "b"));
    assert after.store == map["a" := first, "b" := NewLine(reqs[p], "b", None)];
    assert "a" in after.store && "b" in after.store && "a" != "b";
  }

  /** Two requests past their checks store two live lines. */
  lemma BothStore(edits: bool, reqs: Requests, s: System, p: nat, q: nat) returns (after: System)
    requires Reachable(edits, reqs, s) && s.store == map[] && s.sessions == map[] && Rivals(reqs, p, q)
    requires p in s.requests && s.requests[p] == InFlight(reqs[p], Checked(None), 0)
    requires q in s.requests && s.requests[q] == InFlight(reqs[q], Checked(None), 0)
    requires edits || !Alike(reqs[p], reqs[q])
    ensures Reachable(edits, reqs, after) && Doubled(after.store)
  {
    var line := NewLine(reqs[p], "a", None);
    StepIsReachable(edits, reqs, s, Insert(p, "a"));
    var s1 := Step(s, Insert(p, "a"));
    assert s1.store == map["a" := line];
    var s2 := EditsOnly(edits, reqs, s1, "a");
    after := StoresSecond(edits, reqs, s2, q, s2.store["a"]);
  }

  /** p enters first, its user's other requests free what q shares with it, and q enters. */
  lemma EntersBehind(edits: bool, reqs: Requests, p: nat, q: nat) returns (after: System)
    requires Rivals(reqs, p, q) && (edits || !Alike(reqs[p], reqs[q]))
    requires reqs[p].owner == reqs[q].owner
             || forall key | key in KeysOf(reqs[p]) && key in KeysOf(reqs[q]) :: !Sole(reqs, p, key)
    ensures Reachable(edits, reqs, after) && Doubled(after.store)
  {
    IdleIsReachable(edits, reqs);
    var s := Enters(edits, reqs, IDLE, p);
    if reqs[p].owner != reqs[q].owner {
      var variant := VariantLock(reqs[p]);
      if variant.Some? && variant.value in KeysOf(reqs[q]) {
        s := FreesKey(edits, reqs, s, p, variant.value);
      }
      if LocationLock(reqs[p]) in KeysOf(reqs[q]) {
        s := FreesKey(edits, reqs, s, p, LocationLock(reqs[p]));
      }
    }
    s := Enters(edits, reqs, s, q);
    after := BothStore(edits, reqs, s, p, q);
  }

  /** p's user frees the variant lock while p waits, q enters, and q's user frees the location lock. */
  lemma EntersAcross(edits: bool, reqs: Requests, p: nat, q: nat) returns (after: System)
    requires Rivals(reqs, p, q) && (edits || !Alike(reqs[p], reqs[q]))
    requires reqs[p].owner != reqs[q].owner
    requires VariantLock(reqs[p]).Some? && VariantLock(reqs[p]) == VariantLock(reqs[q])
    requires LocationLock(reqs[p]) == LocationLock(reqs[q])
    requires !Sole(reqs, p, VariantLock(reqs[p]).value) && !Sole(reqs, q, LocationLock(reqs[q]))
    ensures Reachable(edits, reqs, after) && Doubled(after.store)
  {
    IdleIsReachable(edits, reqs);
    var s := Arrives(edits, reqs, IDLE, p);
    s := FreesKey(edits, reqs, s, p, VariantLock(reqs[p]).value);
    s := Enters(edits, reqs, s, q);
    s := FreesKey(edits, reqs, s, q, LocationLock(reqs[q]));
    s := Proceeds(edits, reqs, s, p);
    after := BothStore(edits, reqs, s, p, q);
  }

  lemma UnprotectedBreaks(edits: bool, reqs: Requests, p: nat, q: nat) returns (after: System)
    requires Rivals(reqs, p, q) && (edits || !Alike(reqs[p], reqs[q])) && !Protected(reqs, p, q)
    ensures Reachable(edits, reqs, after) && Doubled(after.store)
  {
    var shared := KeysOf(reqs[p]) * KeysOf(reqs[q]);
    assert reqs[p].owner != reqs[q].owner ==> forall key | key in shared :: !ProtectedBy(reqs, p, q, key);
    if reqs[p].owner == reqs[q].owner || forall key | key in shared :: !Sole(reqs, p, key) {
      after := EntersBehind(edits, reqs, p, q);
    } else if forall key | key in shared :: !Sole(reqs, q, key) {
      after := EntersBehind(edits, reqs, q, p);
    } else if !Sole(reqs, p, VariantLock(reqs[p]).value) {
      after := EntersAcross(edits, reqs, p, q);
    } else {
      after := EntersAcross(edits, reqs, q, p);
    }
  }

  /** A request on its own stores its line and leaves no lock. */
  lemma CompletesAlone(edits: bool, reqs: Requests, p: nat) returns (after: System)
    requires p in reqs && Complete(reqs[p])
    ensures Reachable(edits, reqs, after)
    ensures after == System(map["a" := NewLine(reqs[p], "a", None)], map[], map[], map[])
  {
    IdleIsReachable(edits, reqs);
    var s := Enters(edits, reqs, IDLE, p);
    UnlocksAll(map[], reqs[p]);
    StepIsReachable(edits, reqs, s, Insert(p, "a"));
    s := Step(s, Insert(p, "a"));
    StepIsReachable(edits, reqs, s, Release(p));
    after := Step(s, Release(p));
    assert after.requests == map[];
  }

  /** A request that looks elsewhere is stored beside an earlier line that does not refuse it. */
  lemma UncheckedBreaks(edits: bool, reqs: Requests, q: nat, p: nat) returns (after: System)
    requires p in reqs && q in reqs && Complete(reqs[p]) && Complete(reqs[q]) && !PlacesAgree(reqs[p])
    requires StoredPlace(reqs[q]) == StoredPlace(reqs[p]) && (edits || !Alike(reqs[q], reqs[p]))
    ensures Reachable(edits, reqs, after) && Doubled(after.store)
  {
    var s := CompletesAlone(edits, reqs, q);
    s := EditsOnly(edits, reqs, s, "a");
    s := Enters(edits, reqs, s, p);
    after := StoresSecond(edits, reqs, s, p, s.store["a"]);
  }

  // ---------------------------------------------------------------- the exact condition

  /** Whatever runs, one line is live at each place as soon as nothing is owed. */
  ghost predicate AlwaysOneLive(edits: bool, reqs: Requests) {
    forall s | Reachable(edits, reqs, s) :: !Doubled(s.store)
  }

  lemma UnguardedBreaks(edits: bool, reqs: Requests)
    requires !Guarded(edits, reqs)
    ensures !AlwaysOneLive(edits, reqs)
  {
    if edits && exists p | p in reqs :: Complete(reqs[p]) && !PlacesAgree(reqs[p]) {
      var p :| p in reqs && Complete(reqs[p]) && !PlacesAgree(reqs[p]);
      var s := UncheckedBreaks(edits, reqs, p, p);
    } else {
      var p, q :| Rivals(reqs, p, q) && !GuardedPair(edits, reqs, p, q);
      if !PlacesAgree(reqs[p]) {
        var s := UncheckedBreaks(edits, reqs, q, p);
      } else if !PlacesAgree(reqs[q]) {
        var s := UncheckedBreaks(edits, reqs, p, q);
      } else {
        var s := UnprotectedBreaks(edits, reqs, p, q);
      }
    }
  }

  /** Any requests, interleaved in any way, each repeated as often as one likes, with failures anywhere:
      as soon as nothing is owed there is one live line per place, exactly when any two requests for one
      place carry the same location, barcode and quantity, or look for a duplicate where their lines are
      stored, belong to different users and need one lock that neither user needs for another request.
      If lines may be edited in between, the first way out is none, and every request must look where it
      stores. And then the chains are kept throughout. */
  lemma OneLineStaysLiveIff(edits: bool, reqs: Requests)
    ensures AlwaysOneLive(edits, reqs) <==> Guarded(edits, reqs)
    ensures Guarded(edits, reqs) ==> forall s | Reachable(edits, reqs, s) :: Inv(!edits, s)
  {
    if Guarded(edits, reqs) {
      forall s | Reachable(edits, reqs, s) ensures Inv(!edits, s) && !Doubled(s.store) {
        var events :| RunTo(edits, reqs, events, s);
        GuardedRunsKeepChains(edits, reqs, events);
        SettledIff(s.store);
      }
    } else {
      UnguardedBreaks(edits, reqs);
    }
  }

  /** The lock keys stop the second request: it needs a key the first one holds, for another user. */
  predicate SharesLock(r: Request, q: Request) {
    r.owner != q.owner
    && ((VariantLock(r).Some? && VariantLock(r) == VariantLock(q)) || LocationLock(r) == LocationLock(q))
  }

  lemma SharesLockIffProtected(r: Request, q: Request)
    ensures Protected(map[0 := r, 1 := q], 0, 1) <==> SharesLock(r, q)
    ensures Protected(map[0 := r, 1 := q], 1, 0) <==> SharesLock(r, q)
  {
    var reqs: Requests := map[0 := r, 1 := q];
    if r.owner != q.owner {
      assert forall key :: Sole(reqs, 0, key) && Sole(reqs, 1, key);
      assert forall key :: key in KeysOf(r) && key in KeysOf(q) ==>
          ProtectedBy(reqs, 0, 1, key) && ProtectedBy(reqs, 1, 0, key);
      assert LocationLock(r) in KeysOf(r) && LocationLock(q) in KeysOf(q);
      assert VariantLock(r).Some? ==> VariantLock(r).value in KeysOf(r);
    }
  }

  /** Two requests for one place on their own, under every interleaving: one live line exactly when the
      second is stopped by a lock another user holds or, as long as nothing is edited, by its
      fingerprint. In particular one user's count submitted twice at once is stored once, and two
      different counts of one user can both be stored. */
  lemma TwoRequestsKeepOneIff(edits: bool, r: Request, q: Request)
    requires Complete(r) && Complete(q) && PlacesAgree(r) && PlacesAgree(q) && StoredPlace(r) == StoredPlace(q)
    ensures AlwaysOneLive(edits, map[0 := r, 1 := q]) <==> SharesLock(r, q) || (!edits && Alike(r, q))
  {
    var reqs: Requests := map[0 := r, 1 := q];
    OneLineStaysLiveIff(edits, reqs);
    SharesLockIffProtected(r, q);
    assert Rivals(reqs, 0, 1);
  }

  /** A third request undoes a shared lock: two users count one place under different floor ids, so
      only the variant lock is common, and the first user counts a variant on another floor. */
  lemma ThirdRequestFreesLock(edits: bool)
    ensures var r := Request("s", "i", Some("L"), Some("X"), Some("R"), Some("1"), Some("2"), None, "b", 1.0, "ann",
                             Some("P"));
            var q := r.(floorId := Some("Y"), owner := "bob", quantity := 2.0);
            var t := r.(floorNo := Some("2"), quantity := 3.0);
            && SharesLock(r, q)
            && AlwaysOneLive(edits, map[0 := r, 1 := q])
            && !AlwaysOneLive(edits, map[0 := r, 1 := q, 2 := t])
  {
    var r := Request("s", "i", Some("L"), Some("X"), Some("R"), Some("1"), Some("2"), None, "b", 1.0, "ann", Some("P"));
    var q := r.(floorId := Some("Y"), owner := "bob", quantity := 2.0);
    var t := r.(floorNo := Some("2"), quantity := 3.0);
    assert LocationLock(r).text[4] == 'X' && LocationLock(q).text[4] == 'Y';
    TwoRequestsKeepOneIff(edits, r, q);
    var reqs: Requests := map[0 := r, 1 := q, 2 := t];
    assert 2 in reqs && reqs[2] == t && reqs[0] == r && reqs[2].owner == reqs[0].owner;
    assert VariantLock(r).value in KeysOf(t);
    assert !Sole(reqs, 0, VariantLock(r).value);
    assert !Protected(reqs, 0, 1);
    assert Rivals(reqs, 0, 1);
    OneLineStaysLiveIff(edits, reqs);
  }

  // ---------------------------------------------------------------- a recount that fails in between

  /** The recount has found the rejected line and stored its own. */
  lemma StoresRecount(reqs: Requests, s: System, r: Request) returns (after: System)
    requires Reachable(false, reqs, s) && 1 in reqs && reqs[1] == r && r.recountOf == Some("a")
    requires Complete(r) && PlacesAgree(r) && s.sessions == map[]
    requires "a" in s.store && s.store.Keys == {"a"} && s.store["a"].place == StoredPlace(r) && s.store["a"].id == "a"
    requires s.store["a"].version == 1 && s.store["a"].status.RejectedLine? && s.store["a"].supersededBy.None?
    requires s.requests == map[1 := InFlight(r, Holding, 0)]
    ensures Reachable(false, reqs, after) && after.sessions == map[] && after.locks == s.locks
    ensures after.store == s.store["b" := NewLine(r, "b", Some(s.store["a"]))]
    ensures after.requests == map[1 := InFlight(r, Inserted("b", "a"), 0)]
  {
    var target := Some(s.store["a"]);
    assert !Truthy(s.store["a"].supersededBy);
    StepIsReachable(false, reqs, s, Check(1, Some("a")));
    var s1 := Step(s, Check(1, Some("a")));
    assert s1.requests[1] == InFlight(r, Checked(target), 0);
    assert Print(s.store["a"]).version == 1 && Print(NewLine(r, "b", target)).version == 2;
    StepIsReachable(false, reqs, s1, Insert(1, "b"));
    after := Step(s1, Insert(1, "b"));
  }

  /** The session has been written, so the second write is refused and the request ends. */
  lemma FailsToSupersede(reqs: Requests, s: System, r: Request) returns (after: System)
    requires Reachable(false, reqs, s) && s.sessions == map[]
    requires s.requests == map[1 := InFlight(r, Inserted("b", "a"), 0)]
    ensures Reachable(false, reqs, after) && after.requests == map[] && after.store == s.store
  {
    StepIsReachable(false, reqs, s, Touch(r.sessionId));
    var s1 := Step(s, Touch(r.sessionId));
    assert !SessionStands(s1, s1.requests[1]);
    StepIsReachable(false, reqs, s1, Supersede(1));
    after := Step(s1, Supersede(1));
    assert after.requests == map[];
  }

  /** Any count and its recount, made one after the other: if the session is written between the
      recount's two writes, both lines stay live, with nobody left in flight. */
  lemma FailedRecountLeavesTwo(r: Request) returns (s: System)
    requires Complete(r) && PlacesAgree(r)
    ensures Reachable(false, map[0 := r, 1 := r.(recountOf := Some("a"))], s) && s.requests == map[]
    ensures Stranded(s, "b") && LiveAt(s.store, "a", StoredPlace(r)) && LiveAt(s.store, "b", StoredPlace(r))
  {
    var q := r.(recountOf := Some("a"));
    var reqs: Requests := map[0 := r, 1 := q];
    var rejected := NewLine(r, "a", None).(status := RejectedLine);
    s := RejectedAlone(reqs, r);
    var s1 := Arrives(false, reqs, s, 1);
    assert Granted(s1.locks, LocationLock(q), q.owner);
    var s2 := Acquires(false, reqs, s1, 1);
    assert s2.requests == map[1 := InFlight(q, Holding, 0)];
    var s3 := StoresRecount(reqs, s2, q);
    s := FailsToSupersede(reqs, s3, q);
    assert s.store == map["a" := rejected, "b" := NewLine(q, "b", Some(rejected))];
  }

  lemma RejectedAlone(reqs: Requests, r: Request) returns (s: System)
    requires 0 in reqs && reqs[0] == r && Complete(r)
    ensures Reachable(false, reqs, s)
    ensures s == System(map["a" := NewLine(r, "a", None).(status := RejectedLine)], map[], map[], map[])
  {
    s := CompletesAlone(false, reqs, 0);
    StepIsReachable(false, reqs, s, SetStatus("a", RejectedLine));
    s := Step(s, SetStatus("a", RejectedLine));
  }

  // ---------------------------------------------------------------- one request at a time

  /** A request that nobody interrupts, on any stored lines: having passed its check, it keeps one live
      line per place exactly when its insert is refused, as for a fingerprint that is already stored, or
      every line live at the place it stores is the one its check found and is then superseded. */
  lemma SubmissionKeepsOneIff(s: System, r: Request, found: Option<string>, newId: string, secondFails: bool)
    requires s.locks == map[] && s.requests == map[]
    requires OneLivePerPlace(s.store) && OwnIds(s.store) && newId !in s.store && newId != ""
    requires DuplicateLookup(s.store, r, found) && (found.Some? ==> Reusable(r, s.store[found.value]))
    ensures var target := if found.Some? then Some(s.store[found.value]) else None;
            var line := NewLine(r, newId, target);
            OneLivePerPlace(Uninterrupted(s, r, found, newId, secondFails).store)
            <==> !Insertable(s.store, r, line, target)
                 || forall id | LiveAt(s.store, id, StoredPlace(r)) ::
                      found == Some(id) && Writes(s.store, r, line, target, secondFails).1
  {
    var target := if found.Some? then Some(s.store[found.value]) else None;
    var line := NewLine(r, newId, target);
    AcquireEvents(s, r);
    WriteEvents(s, r, Acquired(s.locks, r).1, found, newId, secondFails);
    WritesKeepOneIff(s.store, r, line, target, secondFails);
  }

  lemma WritesKeepOneIff(store: Store, r: Request, line: Line, target: Option<Line>, secondFails: bool)
    requires OneLivePerPlace(store) && line.id !in store && line.id != "" && !Superseded(line)
    ensures OneLivePerPlace(Writes(store, r, line, target, secondFails).0)
            <==> !Insertable(store, r, line, target)
                 || forall id | LiveAt(store, id, line.place) ::
                      target.Some? && target.value.id == id && Writes(store, r, line, target, secondFails).1
  {
    if Insertable(store, r, line, target) {
      var after := WithLine(store, line);
      InsertKeepsOneIff(store, line, None);
      if target.Some? && Writes(store, r, line, target, secondFails).1 {
        InsertKeepsOneIff(store, line, Some(target.value.id));
      }
    }
  }

  /** Storing a line, and superseding another, leaves one live line per place exactly when the line live
      at its place, if any, is the one superseded. */
  lemma InsertKeepsOneIff(store: Store, line: Line, retired: Option<string>)
    requires OneLivePerPlace(store) && line.id !in store && line.id != "" && !Superseded(line)
    requires retired.Some? ==> retired.value in store
    ensures var stored := WithLine(store, line);
            OneLivePerPlace(if retired.Some? then Retire(stored, retired.value, line) else stored)
            <==> forall id | LiveAt(store, id, line.place) :: retired == Some(id)
  {
    var stored := WithLine(store, line);
    var after := if retired.Some? then Retire(stored, retired.value, line) else stored;
    assert line.id in after && after[line.id] == line;
    assert forall id | id in store && retired != Some(id) :: after[id] == store[id];
    if forall id | LiveAt(store, id, line.place) :: retired == Some(id) {
      forall a, b | a in after && b in after && a != b && !Superseded(after[a]) && !Superseded(after[b])
        ensures after[a].place != after[b].place
      {
        if a == line.id {
          assert b in store && !LiveAt(store, b, line.place);
        } else if b == line.id {
          assert a in store && !LiveAt(store, a, line.place);
        }
      }
    } else {
      var id :| LiveAt(store, id, line.place) && retired != Some(id);
      assert id in after && after[id] == store[id];
    }
  }
}
