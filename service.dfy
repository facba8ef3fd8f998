/**
 * The permission service object: its table of loaded collections (a
 * loading cache keyed by lower-case identifier), the subjects each of those
 * collections has loaded, and the set of registered permission
 * descriptions.
 *
 * What lies outside the service is passed in: the subjects the user and
 * group managers have loaded, what subject storage holds, and the
 * permissions the permission vault knows.
 */
module PermissionService {
  import opened CaseFolding
  import opened CollectionTable
  import opened Descriptions

  /** A loaded subject, seen only through whether it currently holds calculated results. */
  datatype Subject = Subject(cached: bool)

  /** The subjects of each collection, by the collection's identifier (the key it sits under in the table). */
  type Loaded = map<string, map<string, Subject>>

  /** The subjects a collection holds after loading the subject ids saved for it: none of them has cached anything yet. */
  function FromStorage(stored: map<string, set<string>>, identifier: string): (r: map<string, Subject>)
    ensures identifier in stored ==> r.Keys == stored[identifier]
    ensures identifier !in stored ==> r == map[]
    ensures forall id :: id in r ==> !r[id].cached
  {
    var ids := if identifier in stored then stored[identifier] else {};
    map id | id in ids :: Subject(false)
  }

  /** A collection's subjects after each has invalidated its caches. */
  function Invalidated(subjects: map<string, Subject>): (r: map<string, Subject>)
    ensures r.Keys == subjects.Keys
    ensures forall id :: id in r ==> !r[id].cached
  {
    map id | id in subjects :: subjects[id].(cached := false)
  }

  /** Every loaded collection's subjects, all invalidated. */
  function InvalidatedAll(loaded: Loaded): (r: Loaded)
    ensures r.Keys == loaded.Keys
    ensures forall k :: k in r ==> r[k].Keys == loaded[k].Keys
    ensures forall k, id :: k in r && id in r[k] ==> !r[k][id].cached
  {
    map k | k in loaded :: Invalidated(loaded[k])
  }

  /** The subjects loaded from storage by the saved collections under `keys`. */
  function FromStorageAll(keys: set<string>, stored: map<string, set<string>>): Loaded {
    map k | k in keys :: FromStorage(stored, k)
  }

  /** Loading one more saved collection, on top of the subjects already loaded, adds its stored subjects under its key. */
  lemma FromStorageAllStep(loaded: Loaded, keys: set<string>, k: string, stored: map<string, set<string>>)
    ensures loaded + FromStorageAll(keys + {k}, stored) == (loaded + FromStorageAll(keys, stored))[k := FromStorage(stored, k)]
  {
  }

  /** Every loaded collection's subjects invalidated, except those of the collections under the keys in `pending`. */
  function InvalidatedExcept(loaded: Loaded, pending: set<string>): (r: Loaded)
    ensures r.Keys == loaded.Keys
  {
    map k | k in loaded :: if k in pending then loaded[k] else Invalidated(loaded[k])
  }

  /** With every key pending nothing is invalidated yet; with none pending, everything is. */
  lemma InvalidatedExceptEnds(loaded: Loaded)
    ensures InvalidatedExcept(loaded, loaded.Keys) == loaded
    ensures InvalidatedExcept(loaded, {}) == InvalidatedAll(loaded)
  {
  }

  /** Invalidating one more collection's subjects takes one key out of the pending ones. */
  lemma InvalidatedExceptStep(loaded: Loaded, pending: set<string>, key: string)
    requires key in pending && pending <= loaded.Keys
    ensures InvalidatedExcept(loaded, pending)[key] == loaded[key]
    ensures InvalidatedExcept(loaded, pending - {key})
         == InvalidatedExcept(loaded, pending)[key := Invalidated(loaded[key])]
  {
  }

  class Service {
    /** The loading cache of collections, by lower-case identifier. */
    var collections: Table
    /** The subjects each collection of the table has loaded, under the collection's key. */
    var loaded: Loaded
    /** The registered permission descriptions. */
    var permissionDescriptions: set<Description>
    /** How many times the calculator factory's caches have been cleared. */
    var factoryInvalidations: nat

    /**
     * The table is well-formed, each of its collections has its loaded
     * subjects recorded, nothing else does, and no two registered
     * descriptions share an id.
     */
    ghost predicate Valid()
      reads this
    {
      && WellFormed(collections)
      && loaded.Keys == collections.Keys
      && UniqueIds(permissionDescriptions)
    }

    /**
     * Start-up: seed "user", "group" and "defaults", then load each saved
     * collection whose lower-cased identifier is not yet a key.
     */
    constructor (userSubjects: map<string, Subject>, groupSubjects: map<string, Subject>,
                 saved: seq<string>, stored: map<string, set<string>>)
      ensures Valid()
      ensures collections == LoadSaved(Seeds(), saved)
      ensures loaded[UserKey] == userSubjects && loaded[GroupKey] == groupSubjects
      ensures loaded[DefaultsKey] == FromStorage(stored, DefaultsKey)
      ensures forall k :: k in loaded && !IsSeedKey(k) ==> loaded[k] == FromStorage(stored, k)
      ensures permissionDescriptions == {} && factoryInvalidations == 0
    {
      // the defaults collection loads its subjects before the table is pre-populated
      var seeded: Loaded := map[UserKey := userSubjects, GroupKey := groupSubjects, DefaultsKey := FromStorage(stored, DefaultsKey)];
      var table: Table := map[];
      table := table[UserKey := UserManager];
      table := table[GroupKey := GroupManager];
      table := table[DefaultsKey := DefaultsCollection];
      assert table == Seeds() && seeded.Keys == table.Keys;
      var subjects;
      table, subjects := LoadSavedCollections(table, seeded, saved, stored);
      collections, loaded := table, subjects;
      permissionDescriptions := {};
      factoryInvalidations := 0;
      ConstructedTable(saved);
    }

    /**
     * The constructor's loop over the saved collection identifiers: one whose
     * lower-cased form is already a key is skipped; any other is loaded from
     * storage and put under that form.
     */
    static method LoadSavedCollections(table: Table, subjects: Loaded, saved: seq<string>, stored: map<string, set<string>>)
      returns (table': Table, subjects': Loaded)
      requires subjects.Keys == table.Keys
      ensures table' == LoadSaved(table, saved)
      ensures subjects'.Keys == table'.Keys
      ensures forall k :: k in table ==> k in subjects' && subjects'[k] == subjects[k]
      ensures forall k :: k in table' && k !in table ==> subjects'[k] == FromStorage(stored, k)
    {
      table', subjects' := table, subjects;
      ghost var added: set<string> := {};
      for i := 0 to |saved|
        invariant LoadSaved(table', saved[i..]) == LoadSaved(table, saved)
        invariant table'.Keys == table.Keys + added
        invariant added !! table.Keys
        invariant subjects' == subjects + FromStorageAll(added, stored)
      {
        var identifier := saved[i];
        assert saved[i..][1..] == saved[i + 1..];
        if Lower(identifier) in table' {
          continue;
        }
        var collection := Persisted(Lower(identifier));
        FromStorageAllStep(subjects, added, collection.identifier, stored);
        subjects' := subjects'[collection.identifier := FromStorage(stored, collection.identifier)];
        table' := table'[collection.identifier := collection];
        added := added + {collection.identifier};
      }
      assert saved[|saved|..] == [];
    }

    /** `getLoadedCollections()`: a snapshot of the current table, which later changes to the service do not touch. */
    function LoadedCollections(): (m: Table)
      reads this
      requires Valid()
      ensures m == collections
      ensures WellFormed(m)
    {
      collections
    }

    /** `getIdentifierValidityPredicate()`: every identifier is accepted. */
    function IsValidIdentifier(identifier: string): (r: bool)
      ensures r
    {
      true
    }

    /**
     * `getCollection(s)`: the collection under the lower-cased identifier,
     * created empty and cached on a miss.
     */
    method GetCollection(s: string) returns (c: CollectionId)
      requires Valid()
      modifies this
      ensures Valid()
      ensures c == CollectionFor(old(collections), s)
      ensures collections == AfterLookup(old(collections), s)
      ensures Lower(s) in old(collections) ==> loaded == old(loaded)
      ensures Lower(s) !in old(collections) ==> loaded == old(loaded)[Lower(s) := map[]]
      ensures permissionDescriptions == old(permissionDescriptions)
      ensures factoryInvalidations == old(factoryInvalidations)
    {
      var key := Lower(s);
      AfterLookupWellFormed(collections, s);
      if key in collections {
        c := collections[key];
      } else {
        c := Persisted(key);
        loaded := loaded[key := map[]];
        collections := collections[key := c];
      }
    }

    /**
     * `registerPermissionDescription(id, text, owner)`: the new description
     * is added to the registered set (kept out if its id is already
     * registered) and returned.
     */
    method RegisterPermissionDescription(id: string, text: Option<string>, owner: Option<string>)
      returns (d: Description)
      requires Valid()
      modifies this
      ensures Valid()
      ensures d == Description(id, text, owner)
      ensures permissionDescriptions == Register(old(permissionDescriptions), d)
      ensures HasId(permissionDescriptions, id)
      ensures collections == old(collections) && loaded == old(loaded)
      ensures factoryInvalidations == old(factoryInvalidations)
    {
      d := Description(id, text, owner);
      if !HasId(permissionDescriptions, d.id) {
        permissionDescriptions := permissionDescriptions + {d};
      }
    }

    /** `getDescription(s)`: a registered description with id `s`, or none exactly when there is no such description. */
    method GetDescription(s: string) returns (r: Option<Description>)
      ensures r.None? <==> !HasId(permissionDescriptions, s)
      ensures r.Some? ==> r.value in permissionDescriptions && r.value.id == s
    {
      var remaining := permissionDescriptions;
      while remaining != {}
        invariant remaining <= permissionDescriptions
        invariant forall d :: d in permissionDescriptions - remaining ==> d.id != s
        decreases remaining
      {
        var d :| d in remaining;
        if d.id == s {
          return Some(d);
        }
        remaining := remaining - {d};
      }
      return None;
    }

    /**
     * `getDescriptions()`: a fresh set holding the registered descriptions
     * and a placeholder for each permission in `known` (what the vault
     * knows) that no description in the set covers yet.
     */
    method GetDescriptions(known: set<string>) returns (r: set<Description>)
      ensures r == Merged(permissionDescriptions, known)
    {
      r := permissionDescriptions;
      var remaining := known;
      while remaining != {}
        invariant remaining <= known
        invariant r == Merged(permissionDescriptions, known - remaining)
        decreases remaining
      {
        var permission :| permission in remaining;
        var desc := Placeholder(permission);
        ghost var done := known - remaining;
        assert HasId(r, permission) <==> HasId(permissionDescriptions, permission) by {
          if HasId(r, permission) {
            var e :| e in r && e.id == permission;
            assert e in permissionDescriptions;
          }
        }
        if !HasId(r, desc.id) {
          r := r + {desc};
        }
        remaining := remaining - {permission};
        assert Uncovered(permissionDescriptions, known - remaining)
            == Uncovered(permissionDescriptions, done) + (if HasId(permissionDescriptions, permission) then {} else {permission});
      }
      assert known - remaining == known;
    }

    /** The inner loop of `invalidateAllCaches()`: each loaded subject of one collection drops its caches. */
    static method InvalidateSubjects(subjects: map<string, Subject>) returns (r: map<string, Subject>)
      ensures r == Invalidated(subjects)
    {
      r := subjects;
      var pending := subjects.Keys;
      while pending != {}
        invariant pending <= subjects.Keys == r.Keys
        invariant forall id :: id in r && id !in pending ==> r[id] == subjects[id].(cached := false)
        invariant forall id :: id in pending ==> r[id] == subjects[id]
        decreases pending
      {
        var id :| id in pending;
        r := r[id := r[id].(cached := false)];
        pending := pending - {id};
      }
    }

    /**
     * `invalidateAllCaches()`: every loaded subject of every loaded
     * collection drops its caches, then the calculator factory is cleared.
     * The table and the loaded subjects stay the same.
     */
    method InvalidateAllCaches()
      requires Valid()
      modifies this
      ensures Valid()
      ensures collections == old(collections)
      ensures loaded == InvalidatedAll(old(loaded))
      ensures permissionDescriptions == old(permissionDescriptions)
      ensures factoryInvalidations == old(factoryInvalidations) + 1
    {
      var result := loaded;
      var remaining := collections.Keys;
      InvalidatedExceptEnds(loaded);
      while remaining != {}
        invariant remaining <= loaded.Keys
        invariant result == InvalidatedExcept(loaded, remaining)
        modifies {}
        decreases remaining
      {
        var key :| key in remaining;
        var subjects := InvalidateSubjects(result[key]);
        InvalidatedExceptStep(loaded, remaining, key);
        result := result[key := subjects];
        remaining := remaining - {key};
      }
      loaded := result;
      factoryInvalidations := factoryInvalidations + 1;
    }
  }

  /**
   * A snapshot taken with `getLoadedCollections()` keeps its contents when a
   * later lookup that misses adds an entry to the service's table.
   */
  method SnapshotIsDetached(service: Service, s: string) returns (snapshot: Table)
    requires service.Valid() && Lower(s) !in service.collections
    modifies service
    ensures snapshot == old(service.collections)
    ensures Lower(s) !in snapshot && Lower(s) in service.collections
  {
    snapshot := service.LoadedCollections();
    var c := service.GetCollection(s);
    AfterLookupSpec(old(service.collections), s);
  }

  /** "Group" and "group" both find the group manager's collection, and neither adds an entry. */
  method GroupLookups(service: Service) returns (upper: CollectionId, lower: CollectionId)
    requires service.Valid()
    modifies service
    ensures upper == GroupManager && lower == GroupManager
    ensures service.collections == old(service.collections)
  {
    assert Lower("Group") == GroupKey && Lower("group") == GroupKey;
    upper := service.GetCollection("Group");
    lower := service.GetCollection("group");
  }

  /** A description registered under `id` is then found by `getDescription(id)`. */
  method RegisterThenDescribe(service: Service, id: string, text: Option<string>, owner: Option<string>)
    returns (r: Option<Description>)
    requires service.Valid()
    modifies service
    ensures r.Some? && r.value.id == id && r.value in service.permissionDescriptions
  {
    var d := service.RegisterPermissionDescription(id, text, owner);
    r := service.GetDescription(id);
  }
}
