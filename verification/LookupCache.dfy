/** The read-through cache of enhanced lookups, against master updates and verifications
    (backend/api/enhanced_item_api.py, backend/api/item_verification_api.py). */
module LookupCache {
  import opened Common

  /** A stored item: what it can be looked up by, and its other fields. */
  datatype Item = Item(
    barcode: Option<string>,
    itemCode: Option<string>,
    aliases: set<string>,           // autobarcode and manual barcode
    fields: map<string, string>)

  /** Items by their document id. */
  type Database = map<nat, Item>

  const CONTEXT_FIELDS: set<string> := {"expected_location", "found_location", "is_misplaced", "relocation_status"}

  /** `_to_cacheable_item`: a copy without the contextual fields. */
  function Stripped(i: Item): Item {
    i.(fields := i.fields - CONTEXT_FIELDS)
  }

  /** The copy loses the four contextual fields and nothing else. */
  lemma StrippedExactly(i: Item, f: string)
    ensures var copy := Stripped(i);
            && copy.barcode == i.barcode && copy.itemCode == i.itemCode && copy.aliases == i.aliases
            && (f in copy.fields <==>
                  f in i.fields && f !in {"expected_location", "found_location", "is_misplaced", "relocation_status"})
            && (f in copy.fields ==> copy.fields[f] == i.fields[f])
  {
  }

  predicate HasName(o: Option<string>, key: string) {
    o == Some(key) && key != ""
  }

  /** The names verification and master updates know an item by. */
  predicate NamedBy(i: Item, key: string) {
    HasName(i.barcode, key) || HasName(i.itemCode, key)
  }

  /** The names the enhanced lookup knows an item by. */
  predicate ReachedBy(i: Item, key: string) {
    NamedBy(i, key) || key in i.aliases
  }

  ghost predicate Reaches(db: Database, key: string, id: nat) {
    id in db && ReachedBy(db[id], key)
  }

  /** No key reaches two items. */
  ghost predicate Unambiguous(db: Database) {
    forall a, b, key | Reaches(db, key, a) && Reaches(db, key, b) :: a == b
  }

  /** The item `find_one` returns for the enhanced lookup. */
  ghost function Lookup(db: Database, key: string): (r: Option<Item>)
    ensures r.Some? ==> exists id :: Reaches(db, key, id) && r.value == db[id]
    ensures r.None? ==> forall id :: !Reaches(db, key, id)
  {
    if exists id :: Reaches(db, key, id) then
      var id :| Reaches(db, key, id);
      Some(db[id])
    else None
  }

  lemma LookupIs(db: Database, key: string, id: nat)
    requires Unambiguous(db) && Reaches(db, key, id)
    ensures Lookup(db, key) == Some(db[id])
  {
  }

  /** The enhanced lookup finds an item by its barcode, its item code or any alias, and by nothing else. */
  lemma LookupExactly(db: Database, key: string, i: Item)
    requires Unambiguous(db)
    ensures Lookup(db, key) == Some(i)
            <==> exists id | id in db ::
                   db[id] == i && (key in i.aliases || (key != "" && Some(key) in [i.barcode, i.itemCode]))
  {
    forall id | id in db
      ensures Reaches(db, key, id)
              <==> key in db[id].aliases || (key != "" && Some(key) in [db[id].barcode, db[id].itemCode])
    {
      assert [db[id].barcode, db[id].itemCode][0] == db[id].barcode;
      assert [db[id].barcode, db[id].itemCode][1] == db[id].itemCode;
    }
  }

  // ---------------------------------------------------------------- operations

  datatype System = System(db: Database, cache: map<string, Item>)

  /** Where a forced lookup must come from; otherwise the fallback strategy is used. */
  datatype Source = Fallback | ForceMongo | ForceCache

  datatype Op =
    | EnhancedLookup(key: string, source: Source)
    | MasterUpdate(key: string, changes: map<string, string>)
    | Verify(key: string, changes: map<string, string>)
    | Expire(key: string)

  /** `_fetch_with_fallback_strategy`: the cache, then the database. */
  ghost function Fetch(s: System, key: string): Option<Item> {
    if key in s.cache then Some(Stripped(s.cache[key])) else Lookup(s.db, key)
  }

  ghost function Resolve(s: System, key: string, source: Source): Option<Item> {
    match source
    case Fallback => Fetch(s, key)
    case ForceMongo => Lookup(s.db, key)
    case ForceCache => if key in s.cache then Some(Stripped(s.cache[key])) else None
  }

  /** `_resolve_item_identity`: the item code, or the requested key when the item has none. */
  function CodeFor(i: Item, key: string): string {
    if Truthy(i.itemCode) then i.itemCode.value else key
  }

  /** The keys `_invalidate_item_cache` evicts for an item found by this key. */
  function EvictedKeys(i: Item, key: string): set<string> {
    (if Truthy(i.barcode) then {i.barcode.value} else {}) + {CodeFor(i, key)}
  }

  function Invalidated(cache: map<string, Item>, i: Item, key: string): map<string, Item> {
    cache - EvictedKeys(i, key)
  }

  /** The document `update_one` hits: the one whose item code is the resolved code. */
  predicate Hit(i: Item, key: string) {
    i.itemCode == Some(CodeFor(i, key))
  }

  function Changed(db: Database, id: nat, changes: map<string, string>): Database
    requires id in db
  {
    db[id := db[id].(fields := db[id].fields + changes)]
  }

  /** The item an update names, by barcode or item code only. */
  ghost predicate Names(db: Database, key: string, id: nat) {
    id in db && NamedBy(db[id], key)
  }

  ghost function Step(s: System, op: Op): System {
    match op
    case EnhancedLookup(key, source) =>
      (match Resolve(s, key, source)
       case None => s
       case Some(item) => s.(cache := s.cache[key := Stripped(item)]))
    case MasterUpdate(key, changes) =>
      if exists id :: Names(s.db, key, id) then
        var id :| Names(s.db, key, id);
        var item := s.db[id];
        System(if Hit(item, key) then Changed(s.db, id, changes) else s.db, Invalidated(s.cache, item, key))
      else s
    case Verify(key, changes) =>
      if exists id :: Names(s.db, key, id) && Hit(s.db[id], key) then
        var id :| Names(s.db, key, id) && Hit(s.db[id], key);
        System(Changed(s.db, id, changes), Invalidated(s.cache, s.db[id], key))
      else s                                   // nothing matched: refused before the invalidation
    case Expire(key) => s.(cache := s.cache - {key})
  }

  ghost function Run(db: Database, ops: seq<Op>): System {
    if ops == [] then System(db, map[]) else Step(Run(db, ops[..|ops| - 1]), ops[|ops| - 1])
  }

  /** The update's fields are the item's, if it has an item code; all else stays. */
  ghost predicate UpdatedOnly(after: Database, before: Database, id: nat, changes: map<string, string>) {
    && after.Keys == before.Keys && id in before
    && (forall other | other in before && other != id :: after[other] == before[other])
    && after[id].barcode == before[id].barcode && after[id].itemCode == before[id].itemCode
    && after[id].aliases == before[id].aliases
    && forall f ::
         && (f in after[id].fields <==> f in before[id].fields || (Truthy(before[id].itemCode) && f in changes))
         && (f in after[id].fields ==>
               after[id].fields[f] == if Truthy(before[id].itemCode) && f in changes then changes[f]
                                      else before[id].fields[f])
  }

  // ---------------------------------------------------------------- the service

  /** The items and the cache, changed in place. */
  class ItemService {
    var db: Database
    var cache: map<string, Item>

    constructor (db: Database)
      ensures this.db == db && cache == map[]
    {
      this.db := db;
      cache := map[];
    }

    /** `find_one` of the enhanced lookup. */
    method FindOne(key: string) returns (r: Option<Item>)
      requires Unambiguous(db)
      ensures r == Lookup(db, key)
    {
      var ids := db.Keys;
      while ids != {}
        invariant ids <= db.Keys
        invariant forall id | id in db && id !in ids :: !ReachedBy(db[id], key)
        decreases ids
      {
        var id :| id in ids;
        if ReachedBy(db[id], key) {
          LookupIs(db, key, id);
          return Some(db[id]);
        }
        ids := ids - {id};
      }
      r := None;
    }

    /** `_find_item_by_barcode_or_code`. */
    method FindNamed(key: string) returns (r: Option<nat>)
      ensures match r
              case Some(id) => Names(db, key, id)
              case None => forall id :: !Names(db, key, id)
    {
      var ids := db.Keys;
      while ids != {}
        invariant ids <= db.Keys
        invariant forall id | id in db && id !in ids :: !NamedBy(db[id], key)
        decreases ids
      {
        var id :| id in ids;
        if NamedBy(db[id], key) {
          return Some(id);
        }
        ids := ids - {id};
      }
      r := None;
    }

    /** `_fetch_with_fallback_strategy`. */
    method FetchWithFallback(key: string) returns (r: Option<Item>)
      requires Unambiguous(db)
      ensures r == Fetch(System(db, cache), key)
    {
      if key in cache {
        return Some(Stripped(cache[key]));
      }
      r := FindOne(key);
    }

    /** The enhanced lookup: resolve the source, cache a stripped copy, return the item. */
    method GetEnhanced(key: string, source: Source) returns (r: Option<Item>)
      requires Unambiguous(db)
      modifies this`cache
      ensures r == Resolve(old(System(db, cache)), key, source)
      ensures source == ForceMongo || (source == Fallback && key !in old(cache)) ==> r == Lookup(db, key)
      ensures source == ForceCache && key !in old(cache) ==> r == None
      ensures source != ForceMongo && key in old(cache) ==> r == Some(Stripped(old(cache)[key]))
      ensures cache == if r.Some? then old(cache)[key := Stripped(r.value)] else old(cache)
      ensures System(db, cache) == Step(old(System(db, cache)), EnhancedLookup(key, source))
    {
      match source {
        case Fallback => r := FetchWithFallback(key);
        case ForceMongo => r := FindOne(key);
        case ForceCache => r := if key in cache then Some(Stripped(cache[key])) else None;
      }
      if r.Some? {
        cache := cache[key := Stripped(r.value)];
      }
    }

    /** `_invalidate_item_cache`. */
    method InvalidateItemCache(item: Item, key: string)
      modifies this`cache
      ensures cache == Invalidated(old(cache), item, key)
    {
      if Truthy(item.barcode) {
        cache := cache - {item.barcode.value};
      }
      cache := cache - {CodeFor(item, key)};
      assert cache == Invalidated(old(cache), item, key);
    }

    /** `update_item_master`: the filtered update may match nothing; the cache is cleared anyway. */
    method UpdateItemMaster(key: string, changes: map<string, string>) returns (ok: bool)
      requires Unambiguous(db)
      modifies this
      ensures ok <==> exists id :: Names(old(db), key, id)
      ensures forall id | Names(old(db), key, id) :: UpdatedOnly(db, old(db), id, changes)
      ensures !ok ==> db == old(db) && cache == old(cache)
      ensures System(db, cache) == Step(old(System(db, cache)), MasterUpdate(key, changes))
    {
      var found := FindNamed(key);
      if found.None? {
        return false;
      }
      var id := found.value;
      var item := db[id];
      forall other | Names(db, key, other) ensures other == id {
        assert Reaches(db, key, id) && Reaches(db, key, other);
      }
      if Hit(item, key) {
        db := Changed(db, id, changes);
      }
      InvalidateItemCache(item, key);
      ok := true;
    }
  }

  // ---------------------------------------------------------------- transparency

  /** Updates and verifications hit an item exactly when it has an item code. */
  predicate Updatable(i: Item) {
    Truthy(i.itemCode)
  }

  lemma HitIffUpdatable(i: Item, key: string)
    requires NamedBy(i, key)
    ensures Hit(i, key) <==> Updatable(i)
  {
  }

  /** The key, if it reaches an item that updates can hit, is that item's barcode or item code. */
  ghost predicate NotAnAlias(db: Database, key: string) {
    forall id | Reaches(db, key, id) && Updatable(db[id]) :: NamedBy(db[id], key)
  }

  ghost predicate NoAliasLookup(db: Database, op: Op) {
    op.EnhancedLookup? ==> NotAnAlias(db, op.key)
  }

  ghost predicate Transparent(s: System) {
    forall key | key in s.cache ::
      Lookup(s.db, key).Some? && s.cache[key] == Stripped(Lookup(s.db, key).value)
  }

  ghost predicate NamedKeys(s: System) {
    forall key | key in s.cache :: NotAnAlias(s.db, key)
  }

  ghost predicate SameNames(db: Database, other: Database) {
    db.Keys == other.Keys
    && forall id | id in db ::
         && db[id].barcode == other[id].barcode && db[id].itemCode == other[id].itemCode
         && db[id].aliases == other[id].aliases
  }

  ghost predicate Inv(db: Database, s: System) {
    && SameNames(db, s.db)
    && Transparent(s)
    && NamedKeys(s)
  }

  lemma SameNamesReach(db: Database, other: Database)
    requires SameNames(db, other)
    ensures forall key, id :: Reaches(db, key, id) <==> Reaches(other, key, id)
    ensures Unambiguous(db) <==> Unambiguous(other)
  {
  }

  /** Dropping cache entries is harmless. */
  lemma EvictionKeepsInv(db: Database, s: System, keys: set<string>)
    requires Inv(db, s)
    ensures Inv(db, s.(cache := s.cache - keys))
  {
  }

  /** The invalidation evicts every name of the item. */
  lemma NamesEvicted(cache: map<string, Item>, i: Item, key: string, name: string)
    requires NamedBy(i, name)
    ensures name !in Invalidated(cache, i, key)
  {
  }

  /** A cached item other than the updated one is still what the database holds. */
  lemma OtherItemsStay(s: System, id: nat, changes: map<string, string>, k: string, other: nat)
    requires Unambiguous(s.db) && id in s.db && Reaches(s.db, k, other) && other != id
    ensures Lookup(Changed(s.db, id, changes), k) == Lookup(s.db, k)
  {
    var db := Changed(s.db, id, changes);
    SameNamesReach(s.db, db);
    LookupIs(s.db, k, other);
    LookupIs(db, k, other);
  }

  /** An update of one item, with its barcode and item code evicted, leaves every other cached item
      as it was. */
  lemma UpdateKeepsInv(db: Database, s: System, id: nat, key: string, changes: map<string, string>)
    requires Unambiguous(db) && Inv(db, s) && Names(s.db, key, id) && Hit(s.db[id], key)
    ensures Inv(db, System(Changed(s.db, id, changes), Invalidated(s.cache, s.db[id], key)))
  {
    var after := System(Changed(s.db, id, changes), Invalidated(s.cache, s.db[id], key));
    SameNamesReach(db, s.db);
    SameNamesReach(s.db, after.db);
    forall k | k in after.cache
      ensures Lookup(after.db, k).Some? && after.cache[k] == Stripped(Lookup(after.db, k).value)
    {
      assert k in s.cache && after.cache[k] == s.cache[k];
      var other :| Reaches(s.db, k, other);
      assert NotAnAlias(s.db, k);
      HitIffUpdatable(s.db[id], key);
      if other == id {
        NamesEvicted(s.cache, s.db[id], key, k);
      }
      OtherItemsStay(s, id, changes, k, other);
    }
  }

  lemma StepKeepsInv(db: Database, s: System, op: Op)
    requires Unambiguous(db) && Inv(db, s) && NoAliasLookup(db, op)
    ensures Inv(db, Step(s, op))
  {
    SameNamesReach(db, s.db);
    match op
    case EnhancedLookup(key, source) => LookupKeepsInv(db, s, key, source);
    case MasterUpdate(key, changes) =>
      if exists id :: Names(s.db, key, id) {
        var id :| Names(s.db, key, id) && Step(s, op) ==
          System(if Hit(s.db[id], key) then Changed(s.db, id, changes) else s.db, Invalidated(s.cache, s.db[id], key));
        if Hit(s.db[id], key) {
          UpdateKeepsInv(db, s, id, key, changes);
        } else {
          EvictionKeepsInv(db, s, EvictedKeys(s.db[id], key));
        }
      }
    case Verify(key, changes) =>
      if exists id :: Names(s.db, key, id) && Hit(s.db[id], key) {
        var id :| Names(s.db, key, id) && Hit(s.db[id], key)
                  && Step(s, op) == System(Changed(s.db, id, changes), Invalidated(s.cache, s.db[id], key));
        UpdateKeepsInv(db, s, id, key, changes);
      }
    case Expire(key) => EvictionKeepsInv(db, s, {key});
  }

  lemma LookupKeepsInv(db: Database, s: System, key: string, source: Source)
    requires Unambiguous(db) && Inv(db, s) && NoAliasLookup(db, EnhancedLookup(key, source))
    ensures Inv(db, Step(s, EnhancedLookup(key, source)))
  {
    SameNamesReach(db, s.db);
    var found := Resolve(s, key, source);
    if found.Some? {
      assert Lookup(s.db, key).Some?;
      assert Stripped(found.value) == Stripped(Lookup(s.db, key).value);
    }
  }

  ghost predicate NoAliasLookups(db: Database, ops: seq<Op>) {
    forall i | 0 <= i < |ops| :: NoAliasLookup(db, ops[i])
  }

  lemma {:induction false} RunsKeepInv(db: Database, ops: seq<Op>)
    requires Unambiguous(db) && NoAliasLookups(db, ops)
    ensures Inv(db, Run(db, ops))
  {
    if ops != [] {
      RunsKeepInv(db, ops[..|ops| - 1]);
      StepKeepsInv(db, Run(db, ops[..|ops| - 1]), ops[|ops| - 1]);
    }
  }

  /** Cache transparency: after any sequence of enhanced lookups, master updates, verifications and
      expiries, in which items with an item code are looked up by that code or the barcode, a fallback
      lookup of any key gives the same item, up to contextual fields, as reading the database. */
  lemma CacheIsTransparent(db: Database, ops: seq<Op>, key: string)
    requires Unambiguous(db) && NoAliasLookups(db, ops)
    ensures var s := Run(db, ops);
            && (Fetch(s, key).Some? <==> Lookup(s.db, key).Some?)
            && (Fetch(s, key).Some? ==> Stripped(Fetch(s, key).value) == Stripped(Lookup(s.db, key).value))
  {
    RunsKeepInv(db, ops);
  }

  // ---------------------------------------------------------------- why aliases are excluded

  lemma MasterUpdateStep(s: System, id: nat, key: string, changes: map<string, string>)
    requires Unambiguous(s.db) && Names(s.db, key, id)
    ensures Step(s, MasterUpdate(key, changes))
            == System(if Hit(s.db[id], key) then Changed(s.db, id, changes) else s.db,
                      Invalidated(s.cache, s.db[id], key))
  {
    forall other | Names(s.db, key, other) ensures other == id {
      assert Reaches(s.db, key, id) && Reaches(s.db, key, other);
    }
  }

  /** The eviction takes exactly the names of an item with an item code. */
  lemma EvictedIffNamed(cache: map<string, Item>, i: Item, key: string, k: string)
    requires Updatable(i) && k in cache
    ensures k !in Invalidated(cache, i, key) <==> NamedBy(i, k)
  {
  }

  /** The update changes something besides contextual fields. */
  predicate Alters(i: Item, changes: map<string, string>) {
    Stripped(i) != Stripped(i.(fields := i.fields + changes))
  }

  /** One master update, from any transparent state: the cache stays transparent exactly when the update
      hits nothing, changes nothing but contextual fields, or finds the item cached under its barcode
      and item code only. */
  lemma UpdateKeepsTransparentIff(s: System, id: nat, key: string, changes: map<string, string>)
    requires Unambiguous(s.db) && Transparent(s) && Names(s.db, key, id)
    ensures Transparent(Step(s, MasterUpdate(key, changes)))
            <==> !Updatable(s.db[id]) || !Alters(s.db[id], changes)
                 || forall k | k in s.cache && Reaches(s.db, k, id) :: NamedBy(s.db[id], k)
  {
    var i := s.db[id];
    var after := Step(s, MasterUpdate(key, changes));
    MasterUpdateStep(s, id, key, changes);
    HitIffUpdatable(i, key);
    if Updatable(i) {
      SameNamesReach(s.db, after.db);
      forall k | k in after.cache
        ensures k in s.cache && Lookup(after.db, k).Some? && after.cache[k] == s.cache[k]
        ensures after.cache[k] == Stripped(Lookup(after.db, k).value)
                <==> !Reaches(s.db, k, id) || !Alters(i, changes)
      {
        CachedAfterUpdate(s, id, changes, k);
      }
      forall k | k in s.cache ensures k in after.cache <==> !NamedBy(i, k) {
        EvictedIffNamed(s.cache, i, key, k);
      }
    }
  }

  /** A cached copy is still right after an update unless it is a copy of the updated item and the
      update alters it. */
  lemma CachedAfterUpdate(s: System, id: nat, changes: map<string, string>, k: string)
    requires Unambiguous(s.db) && Transparent(s) && id in s.db && k in s.cache
    ensures var found := Lookup(Changed(s.db, id, changes), k);
            && found.Some?
            && (s.cache[k] == Stripped(found.value) <==> !Reaches(s.db, k, id) || !Alters(s.db[id], changes))
  {
    var db := Changed(s.db, id, changes);
    SameNamesReach(s.db, db);
    var other :| Reaches(s.db, k, other);
    LookupIs(s.db, k, other);
    LookupIs(db, k, other);
    if other != id {
      assert !Reaches(s.db, k, id);
    }
  }

  /** Every key that reaches an item with an item code is its barcode or that code. */
  ghost predicate NoAliases(db: Database) {
    forall key :: NotAnAlias(db, key)
  }

  /** A change that alters the item, whatever it holds. */
  function Altering(i: Item): map<string, string> {
    map["n" := if "n" in i.fields then i.fields["n"] + "x" else ""]
  }

  lemma AlteringAlters(i: Item)
    ensures Alters(i, Altering(i))
  {
    var after := i.(fields := i.fields + Altering(i));
    assert "n" !in CONTEXT_FIELDS by {
      assert forall f | f in CONTEXT_FIELDS :: |f| > 1;
    }
    assert "n" in Stripped(after).fields;
    if "n" in i.fields {
      assert |Stripped(after).fields["n"]| == |i.fields["n"]| + 1;
      assert Stripped(i).fields["n"] == i.fields["n"];
    }
  }

  /** An item looked up by an alias and then updated stays in the cache as it was. */
  lemma AliasGoesStale(db: Database, id: nat, alias: string)
    requires Unambiguous(db) && Reaches(db, alias, id) && Updatable(db[id]) && !NamedBy(db[id], alias)
    ensures !Transparent(Run(db, [EnhancedLookup(alias, Fallback),
                                  MasterUpdate(db[id].itemCode.value, Altering(db[id]))]))
  {
    var code, changes := db[id].itemCode.value, Altering(db[id]);
    var ops := [EnhancedLookup(alias, Fallback), MasterUpdate(code, changes)];
    var first := [EnhancedLookup(alias, Fallback)];
    assert ops[..1] == first && first[..0] == [];
    var s := Run(db, first);
    LookupIs(db, alias, id);
    assert s == Step(Run(db, first[..0]), EnhancedLookup(alias, Fallback));
    assert s == System(db, map[alias := Stripped(db[id])]);
    AlteringAlters(db[id]);
    UpdateKeepsTransparentIff(s, id, code, changes);
  }

  /** Over all runs of uninterrupted requests, the cache stays transparent exactly when no item with an
      item code can be looked up by anything but that code and its barcode. */
  lemma AlwaysTransparentIff(db: Database)
    requires Unambiguous(db)
    ensures (forall ops :: Transparent(Run(db, ops))) <==> NoAliases(db)
  {
    if NoAliases(db) {
      forall ops ensures Transparent(Run(db, ops)) {
        RunsKeepInv(db, ops);
      }
    } else {
      var alias :| !NotAnAlias(db, alias);
      var id :| Reaches(db, alias, id) && Updatable(db[id]) && !NamedBy(db[id], alias);
      AliasGoesStale(db, id, alias);
    }
  }
}
