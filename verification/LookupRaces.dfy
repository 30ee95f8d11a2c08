/** Enhanced lookups in two steps, the read and the filling of the cache, and updates in two steps, the
    write and the eviction, interleaved (backend/api/enhanced_item_api.py,
    backend/api/item_verification_api.py). */
module LookupRaces {
  import opened LookupCache

  /** A lookup that has read its item and not yet cached it. */
  datatype Pending = Pending(key: string, item: Item)

  /** An update that has been written, with the item it found, and has not yet evicted its names. */
  datatype Written = Written(item: Item, key: string)

  datatype Racing = Racing(s: System, pending: map<nat, Pending>, evicting: map<nat, Written>)

  datatype Event =
    | Read(pid: nat, key: string, source: Source)
    | Fill(pid: nat)
    | Write(uid: nat, key: string, changes: map<string, string>, verify: bool)
    | Evict(uid: nat)
    | Drop(key: string)                                // expiry

  /** The item an update finds; a verification that matches nothing is refused. */
  ghost predicate Finds(db: Database, key: string, verify: bool, id: nat) {
    Names(db, key, id) && (verify ==> Hit(db[id], key))
  }

  ghost function Next(r: Racing, ev: Event): Racing {
    match ev
    case Read(pid, key, source) =>
      (match Resolve(r.s, key, source)
       case None => r
       case Some(item) => r.(pending := r.pending[pid := Pending(key, Stripped(item))]))
    case Fill(pid) =>
      if pid !in r.pending then r
      else r.(s := r.s.(cache := r.s.cache[r.pending[pid].key := r.pending[pid].item]), pending := r.pending - {pid})
    case Write(uid, key, changes, verify) =>
      if uid !in r.evicting && exists id :: Finds(r.s.db, key, verify, id) then
        var id :| Finds(r.s.db, key, verify, id);
        r.(s := r.s.(db := if Hit(r.s.db[id], key) then Changed(r.s.db, id, changes) else r.s.db),
           evicting := r.evicting[uid := Written(r.s.db[id], key)])
      else r
    case Evict(uid) =>
      if uid !in r.evicting then r
      else
        var w := r.evicting[uid];
        r.(s := r.s.(cache := Invalidated(r.s.cache, w.item, w.key)), evicting := r.evicting - {uid})
    case Drop(key) => r.(s := r.s.(cache := r.s.cache - {key}))
  }

  ghost function Race(db: Database, events: seq<Event>): Racing {
    if events == [] then Racing(System(db, map[]), map[], map[])
    else Next(Race(db, events[..|events| - 1]), events[|events| - 1])
  }

  /** Nothing is between its two steps. */
  predicate Quiet(r: Racing) {
    r.pending == map[] && r.evicting == map[]
  }

  /** What is cached under the key, if anything, is what the database holds. */
  ghost predicate KeyRight(s: System, key: string) {
    key in s.cache ==> Lookup(s.db, key).Some? && s.cache[key] == Stripped(Lookup(s.db, key).value)
  }

  // ---------------------------------------------------------------- one fill

  /** Names never change. */
  lemma NextKeepsNames(r: Racing, ev: Event)
    ensures SameNames(r.s.db, Next(r, ev).s.db)
  {
  }

  lemma {:induction false} RaceKeepsNames(db: Database, events: seq<Event>)
    ensures SameNames(db, Race(db, events).s.db)
  {
    if events != [] {
      RaceKeepsNames(db, events[..|events| - 1]);
      NextKeepsNames(Race(db, events[..|events| - 1]), events[|events| - 1]);
    }
  }

  /** No event from k on concerns lookup pid. */
  predicate NotTouched(events: seq<Event>, k: nat, pid: nat) {
    forall i | k <= i < |events| ::
      (events[i].Read? ==> events[i].pid != pid) && (events[i].Fill? ==> events[i].pid != pid)
  }

  lemma {:induction false} PendingStays(db: Database, events: seq<Event>, k: nat, pid: nat)
    requires k <= |events| && NotTouched(events, k, pid) && pid in Race(db, events[..k]).pending
    ensures pid in Race(db, events).pending
    ensures Race(db, events).pending[pid] == Race(db, events[..k]).pending[pid]
  {
    if k == |events| {
      assert events[..k] == events;
    } else {
      assert events[..|events| - 1][..k] == events[..k];
      PendingStays(db, events[..|events| - 1], k, pid);
    }
  }

  /** A read where the cached copy is right holds the item as it stands. */
  lemma ReadIsFresh(r: Racing, pid: nat, key: string, source: Source, id: nat)
    requires Unambiguous(r.s.db) && KeyRight(r.s, key) && Reaches(r.s.db, key, id)
    requires Resolve(r.s, key, source).Some?
    ensures var after := Next(r, Read(pid, key, source));
            pid in after.pending && after.pending[pid] == Pending(key, Stripped(r.s.db[id]))
  {
    LookupIs(r.s.db, key, id);
  }

  /** Lookup pid reads at event k and fills after all the events: where the cached copy was right at the
      read, it is right after the fill exactly when the item is then, but for contextual fields, what it
      was at the read. */
  lemma FillIsRightIff(db: Database, events: seq<Event>, k: nat, id: nat)
    requires Unambiguous(db) && k < |events| && events[k].Read? && Reaches(db, events[k].key, id)
    requires KeyRight(Race(db, events[..k]).s, events[k].key)
    requires Resolve(Race(db, events[..k]).s, events[k].key, events[k].source).Some?
    requires NotTouched(events, k + 1, events[k].pid)
    ensures id in Race(db, events[..k]).s.db && id in Race(db, events).s.db
    ensures KeyRight(Next(Race(db, events), Fill(events[k].pid)).s, events[k].key)
            <==> Stripped(Race(db, events).s.db[id]) == Stripped(Race(db, events[..k]).s.db[id])
  {
    var before, r, pid, key := Race(db, events[..k]), Race(db, events), events[k].pid, events[k].key;
    RaceKeepsNames(db, events[..k]);
    RaceKeepsNames(db, events);
    SameNamesReach(db, before.s.db);
    SameNamesReach(db, r.s.db);
    assert events[..k + 1][..k] == events[..k];
    assert Race(db, events[..k + 1]) == Next(before, events[k]);
    ReadIsFresh(before, pid, key, events[k].source, id);
    PendingStays(db, events, k + 1, pid);
    LookupIs(r.s.db, key, id);
  }

  // ---------------------------------------------------------------- runs without interference

  ghost predicate UpToDate(db: Database, p: Pending) {
    && Lookup(db, p.key).Some? && p.item == Stripped(Lookup(db, p.key).value)
    && NotAnAlias(db, p.key)
  }

  /** A written update is about to evict the key. */
  ghost predicate AboutToGo(r: Racing, key: string) {
    exists uid :: uid in r.evicting && key in EvictedKeys(r.evicting[uid].item, r.evicting[uid].key)
  }

  ghost predicate RightOrGoing(r: Racing) {
    forall key | key in r.s.cache :: KeyRight(r.s, key) || AboutToGo(r, key)
  }

  /** A written update knows the item by its names. */
  ghost predicate WrittenNamed(r: Racing) {
    forall uid | uid in r.evicting :: NamedBy(r.evicting[uid].item, r.evicting[uid].key)
  }

  ghost predicate RaceInv(db: Database, r: Racing) {
    && SameNames(db, r.s.db)
    && NamedKeys(r.s)
    && RightOrGoing(r)
    && WrittenNamed(r)
    && forall pid | pid in r.pending :: UpToDate(r.s.db, r.pending[pid])
  }

  /** No lookup by an alias; no lookup of an item begins between its write and its eviction; and no write
      alters an item that is being looked up. */
  ghost predicate Undisturbed(r: Racing, ev: Event) {
    match ev
    case Read(_, key, _) =>
      NotAnAlias(r.s.db, key) && forall uid | uid in r.evicting :: !ReachedBy(r.evicting[uid].item, key)
    case Write(_, key, changes, verify) =>
      forall id, pid | Finds(r.s.db, key, verify, id) && pid in r.pending && Alters(r.s.db[id], changes) ::
        !ReachedBy(r.s.db[id], r.pending[pid].key)
    case _ => true
  }

  ghost predicate AllUndisturbed(db: Database, events: seq<Event>) {
    events == [] ||
    (AllUndisturbed(db, events[..|events| - 1])
     && Undisturbed(Race(db, events[..|events| - 1]), events[|events| - 1]))
  }

  lemma SameNamesSameAliases(db: Database, other: Database, key: string)
    requires SameNames(db, other)
    ensures NotAnAlias(db, key) <==> NotAnAlias(other, key)
  {
    SameNamesReach(db, other);
  }

  /** An update evicts only keys that reach its item. */
  lemma EvictedKeysReach(i: Item, key: string, k: string)
    requires NamedBy(i, key) && k in EvictedKeys(i, key)
    ensures ReachedBy(i, k)
  {
  }

  lemma ReadKeepsInv(db: Database, r: Racing, pid: nat, key: string, source: Source)
    requires Unambiguous(r.s.db) && RaceInv(db, r) && Undisturbed(r, Read(pid, key, source))
    ensures RaceInv(db, Next(r, Read(pid, key, source)))
  {
    var found := Resolve(r.s, key, source);
    forall uid | uid in r.evicting ensures key !in EvictedKeys(r.evicting[uid].item, r.evicting[uid].key) {
      if key in EvictedKeys(r.evicting[uid].item, r.evicting[uid].key) {
        EvictedKeysReach(r.evicting[uid].item, r.evicting[uid].key, key);
      }
    }
    assert !AboutToGo(r, key);
    if found.Some? {
      assert KeyRight(r.s, key);
      assert UpToDate(r.s.db, Pending(key, Stripped(found.value)));
      var after := Next(r, Read(pid, key, source));
      assert forall k | AboutToGo(r, k) :: AboutToGo(after, k);
    }
  }

  lemma FillKeepsInv(db: Database, r: Racing, pid: nat)
    requires RaceInv(db, r)
    ensures RaceInv(db, Next(r, Fill(pid)))
  {
    if pid in r.pending {
      var after := Next(r, Fill(pid));
      assert UpToDate(r.s.db, r.pending[pid]);
      forall key | key in after.s.cache ensures KeyRight(after.s, key) || AboutToGo(after, key) {
        if key != r.pending[pid].key {
          assert KeyRight(r.s, key) || AboutToGo(r, key);
        }
      }
    }
  }

  lemma EvictKeepsInv(db: Database, r: Racing, uid: nat)
    requires RaceInv(db, r)
    ensures RaceInv(db, Next(r, Evict(uid)))
  {
    if uid in r.evicting {
      var after := Next(r, Evict(uid));
      forall key | key in after.s.cache ensures KeyRight(after.s, key) || AboutToGo(after, key) {
        assert KeyRight(r.s, key) || AboutToGo(r, key);
        if AboutToGo(r, key) {
          var u :| u in r.evicting && key in EvictedKeys(r.evicting[u].item, r.evicting[u].key);
          assert u in after.evicting;
        }
      }
    }
  }

  lemma DropKeepsInv(db: Database, r: Racing, key: string)
    requires RaceInv(db, r)
    ensures RaceInv(db, Next(r, Drop(key)))
  {
    var after := Next(r, Drop(key));
    forall k | k in after.s.cache ensures KeyRight(after.s, k) || AboutToGo(after, k) {
      assert KeyRight(r.s, k) || AboutToGo(r, k);
    }
  }

  /** A change of one item leaves the lookups of all others as they were. */
  lemma OthersLookUpTheSame(db: Database, id: nat, changes: map<string, string>, k: string)
    requires Unambiguous(db) && id in db && !(ReachedBy(db[id], k) && Alters(db[id], changes))
    ensures Lookup(db, k).Some? <==> Lookup(Changed(db, id, changes), k).Some?
    ensures Lookup(db, k).Some? ==> Stripped(Lookup(db, k).value) == Stripped(Lookup(Changed(db, id, changes), k).value)
  {
    var after := Changed(db, id, changes);
    SameNamesReach(db, after);
    if Lookup(db, k).Some? {
      var other :| Reaches(db, k, other);
      LookupIs(db, k, other);
      LookupIs(after, k, other);
    }
  }

  /** The write and its record, for the item it found. */
  lemma WriteStep(r: Racing, uid: nat, key: string, changes: map<string, string>, verify: bool, id: nat)
    requires Unambiguous(r.s.db) && Finds(r.s.db, key, verify, id) && uid !in r.evicting
    ensures Next(r, Write(uid, key, changes, verify))
            == Racing(System(if Hit(r.s.db[id], key) then Changed(r.s.db, id, changes) else r.s.db, r.s.cache),
                      r.pending, r.evicting[uid := Written(r.s.db[id], key)])
  {
    forall other | Finds(r.s.db, key, verify, other) ensures other == id {
      assert Reaches(r.s.db, key, id) && Reaches(r.s.db, key, other);
    }
  }

  /** After a write, a cached copy is right, or about to be evicted by this update or an earlier one. */
  lemma CachedAfterWrite(db: Database, r: Racing, uid: nat, key: string, changes: map<string, string>,
                         id: nat, k: string)
    requires Unambiguous(r.s.db) && RaceInv(db, r) && Names(r.s.db, key, id) && uid !in r.evicting && k in r.s.cache
    requires Hit(r.s.db[id], key)
    ensures var after := Racing(System(Changed(r.s.db, id, changes), r.s.cache), r.pending,
                                r.evicting[uid := Written(r.s.db[id], key)]);
            KeyRight(after.s, k) || AboutToGo(after, k)
  {
    var after := Racing(System(Changed(r.s.db, id, changes), r.s.cache), r.pending,
                        r.evicting[uid := Written(r.s.db[id], key)]);
    if AboutToGo(r, k) {
      var u :| u in r.evicting && k in EvictedKeys(r.evicting[u].item, r.evicting[u].key);
      assert u in after.evicting && after.evicting[u] == r.evicting[u];
    } else if ReachedBy(r.s.db[id], k) {
      HitIffUpdatable(r.s.db[id], key);
      assert NotAnAlias(r.s.db, k) && Reaches(r.s.db, k, id);
      NamesEvicted(map[k := r.s.db[id]], r.s.db[id], key, k);
      assert uid in after.evicting;
    } else {
      OthersLookUpTheSame(r.s.db, id, changes, k);
    }
  }

  lemma WriteKeepsInv(db: Database, r: Racing, uid: nat, key: string, changes: map<string, string>, verify: bool)
    requires Unambiguous(r.s.db) && RaceInv(db, r) && Undisturbed(r, Write(uid, key, changes, verify))
    ensures RaceInv(db, Next(r, Write(uid, key, changes, verify)))
  {
    var after := Next(r, Write(uid, key, changes, verify));
    if uid !in r.evicting && exists id :: Finds(r.s.db, key, verify, id) {
      var id :| Finds(r.s.db, key, verify, id);
      WriteStep(r, uid, key, changes, verify, id);
      NextKeepsNames(r, Write(uid, key, changes, verify));
      SameNamesReach(r.s.db, after.s.db);
      if Hit(r.s.db[id], key) {
        forall k | k in after.s.cache ensures KeyRight(after.s, k) || AboutToGo(after, k) {
          CachedAfterWrite(db, r, uid, key, changes, id, k);
        }
        forall pid | pid in r.pending ensures UpToDate(after.s.db, r.pending[pid]) {
          OthersLookUpTheSame(r.s.db, id, changes, r.pending[pid].key);
          SameNamesSameAliases(r.s.db, after.s.db, r.pending[pid].key);
        }
      } else {
        UnhitWriteKeepsCache(r, after, uid);
      }
      forall k | k in after.s.cache ensures NotAnAlias(after.s.db, k) {
        SameNamesSameAliases(r.s.db, after.s.db, k);
      }
    }
  }

  lemma UnhitWriteKeepsCache(r: Racing, after: Racing, uid: nat)
    requires RightOrGoing(r) && after.s == r.s && uid !in r.evicting
    requires forall u | u in r.evicting :: u in after.evicting && after.evicting[u] == r.evicting[u]
    ensures RightOrGoing(after)
  {
    forall k | k in after.s.cache ensures KeyRight(after.s, k) || AboutToGo(after, k) {
      if AboutToGo(r, k) {
        var u :| u in r.evicting && k in EvictedKeys(r.evicting[u].item, r.evicting[u].key);
        assert u in after.evicting && after.evicting[u] == r.evicting[u];
      }
    }
  }

  lemma NextKeepsInv(db: Database, r: Racing, ev: Event)
    requires Unambiguous(db) && RaceInv(db, r) && Undisturbed(r, ev)
    ensures RaceInv(db, Next(r, ev))
  {
    SameNamesReach(db, r.s.db);
    match ev
    case Read(pid, key, source) => ReadKeepsInv(db, r, pid, key, source);
    case Fill(pid) => FillKeepsInv(db, r, pid);
    case Write(uid, key, changes, verify) => WriteKeepsInv(db, r, uid, key, changes, verify);
    case Evict(uid) => EvictKeepsInv(db, r, uid);
    case Drop(key) => DropKeepsInv(db, r, key);
  }

  /** Over every interleaving in which no lookup of an item overlaps the time from an altering write to its
      eviction, whatever is cached is right or about to be evicted; and whenever nothing is being evicted,
      the cache is transparent. */
  lemma {:induction false} UndisturbedRacesAreTransparent(db: Database, events: seq<Event>)
    requires Unambiguous(db) && AllUndisturbed(db, events)
    ensures RaceInv(db, Race(db, events))
    ensures Race(db, events).evicting == map[] ==> Transparent(Race(db, events).s)
  {
    if events != [] {
      UndisturbedRacesAreTransparent(db, events[..|events| - 1]);
      NextKeepsInv(db, Race(db, events[..|events| - 1]), events[|events| - 1]);
    }
  }

  // ---------------------------------------------------------------- all runs

  ghost predicate NothingUpdatable(db: Database) {
    forall id | id in db :: !Updatable(db[id])
  }

  ghost predicate Still(db: Database, r: Racing) {
    r.s.db == db && Transparent(r.s) && forall pid | pid in r.pending :: KeyHolds(db, r.pending[pid])
  }

  ghost predicate KeyHolds(db: Database, p: Pending) {
    Lookup(db, p.key).Some? && p.item == Stripped(Lookup(db, p.key).value)
  }

  lemma NextStaysStill(db: Database, r: Racing, ev: Event)
    requires NothingUpdatable(db) && Still(db, r)
    ensures Still(db, Next(r, ev))
  {
    if ev.Write? {
      forall id | Names(db, ev.key, id) ensures !Hit(db[id], ev.key) {
        HitIffUpdatable(db[id], ev.key);
      }
    }
  }

  lemma {:induction false} NothingToUpdate(db: Database, events: seq<Event>)
    requires NothingUpdatable(db)
    ensures Still(db, Race(db, events))
  {
    if events != [] {
      NothingToUpdate(db, events[..|events| - 1]);
      NextStaysStill(db, Race(db, events[..|events| - 1]), events[|events| - 1]);
    }
  }

  lemma RaceSnoc(db: Database, events: seq<Event>, ev: Event)
    ensures Race(db, events + [ev]) == Next(Race(db, events), ev)
  {
    assert (events + [ev])[..|events|] == events;
  }

  function WriteOf(i: Item): Event
    requires i.itemCode.Some?
  {
    Write(0, i.itemCode.value, Altering(i), false)
  }

  /** A write and its eviction between a lookup's read and its fill leave the old copy behind. */
  lemma UpdateDuringLookup(db: Database, id: nat)
    requires Unambiguous(db) && id in db && Updatable(db[id])
    ensures var code := db[id].itemCode.value;
            var r := Race(db, [] + [Read(0, code, Fallback)] + [WriteOf(db[id])] + [Evict(0)] + [Fill(0)]);
            Quiet(r) && !Transparent(r.s)
  {
    var code, changes := db[id].itemCode.value, Altering(db[id]);
    var e1, e2 := [] + [Read(0, code, Fallback)], [] + [Read(0, code, Fallback)] + [WriteOf(db[id])];
    var e3 := e2 + [Evict(0)];
    assert Reaches(db, code, id) && Finds(db, code, false, id);
    LookupIs(db, code, id);
    RaceSnoc(db, [], Read(0, code, Fallback));
    var r1 := Race(db, e1);
    assert r1 == Racing(System(db, map[]), map[0 := Pending(code, Stripped(db[id]))], map[]);
    RaceSnoc(db, e1, WriteOf(db[id]));
    WriteStep(r1, 0, code, changes, false, id);
    HitIffUpdatable(db[id], code);
    var r2 := Race(db, e2);
    RaceSnoc(db, e2, Evict(0));
    RaceSnoc(db, e3, Fill(0));
    var r4 := Race(db, e3 + [Fill(0)]);
    assert r4.s.db == Changed(db, id, changes) && r4.s.cache == map[code := Stripped(db[id])];
    SameNamesReach(db, r4.s.db);
    LookupIs(r4.s.db, code, id);
    AlteringAlters(db[id]);
    assert code in r4.s.cache;
    assert r4.pending == map[] && r4.evicting == map[];
  }

  /** Once lookups and updates can be interrupted, no choice of lookup keys helps: over all interleavings
      the cache is transparent whenever nothing is under way exactly when there is no item that updates
      can hit. */
  lemma AlwaysTransparentIffNothingUpdatable(db: Database)
    requires Unambiguous(db)
    ensures (forall events :: Quiet(Race(db, events)) ==> Transparent(Race(db, events).s)) <==> NothingUpdatable(db)
  {
    if NothingUpdatable(db) {
      forall events ensures Transparent(Race(db, events).s) {
        NothingToUpdate(db, events);
      }
    } else {
      var id :| id in db && Updatable(db[id]);
      UpdateDuringLookup(db, id);
    }
  }

  /** A lookup between a write and its eviction takes the old cached copy and puts it back after the
      eviction: nothing is altered between that lookup's read and its fill, and the copy is stale. */
  lemma LookupBeforeEviction(db: Database, id: nat)
    requires Unambiguous(db) && id in db && Updatable(db[id])
    ensures var code := db[id].itemCode.value;
            var written := [] + [Read(0, code, Fallback)] + [Fill(0)] + [WriteOf(db[id])];
            var r := Race(db, written + [Read(1, code, Fallback)] + [Evict(0)] + [Fill(1)]);
            Quiet(r) && r.s.db == Race(db, written).s.db && !Transparent(r.s)
  {
    var code, changes := db[id].itemCode.value, Altering(db[id]);
    var e1 := [] + [Read(0, code, Fallback)];
    var e2, e3 := e1 + [Fill(0)], e1 + [Fill(0)] + [WriteOf(db[id])];
    var e4, e5 := e3 + [Read(1, code, Fallback)], e3 + [Read(1, code, Fallback)] + [Evict(0)];
    assert Reaches(db, code, id) && Finds(db, code, false, id);
    LookupIs(db, code, id);
    HitIffUpdatable(db[id], code);
    RaceSnoc(db, [], Read(0, code, Fallback));
    RaceSnoc(db, e1, Fill(0));
    var r2 := Race(db, e2);
    assert r2 == Racing(System(db, map[code := Stripped(db[id])]), map[], map[]);
    RaceSnoc(db, e2, WriteOf(db[id]));
    WriteStep(r2, 0, code, changes, false, id);
    RaceSnoc(db, e3, Read(1, code, Fallback));
    var r4 := Race(db, e4);
    StrippedTwice(db[id]);
    assert r4.pending == map[1 := Pending(code, Stripped(db[id]))];
    RaceSnoc(db, e4, Evict(0));
    RaceSnoc(db, e5, Fill(1));
    var r6 := Race(db, e5 + [Fill(1)]);
    assert r6.pending == map[] && r6.evicting == map[];
    assert code in r6.s.cache && r6.s.cache[code] == Stripped(db[id]);
    SameNamesReach(db, r6.s.db);
    LookupIs(r6.s.db, code, id);
    AlteringAlters(db[id]);
  }

  lemma StrippedTwice(i: Item)
    ensures Stripped(Stripped(i)) == Stripped(i)
  {
    assert (i.fields - CONTEXT_FIELDS) - CONTEXT_FIELDS == i.fields - CONTEXT_FIELDS;
  }
}
