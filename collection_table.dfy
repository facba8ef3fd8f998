/**
 * The collection table of the permission service: a map from lower-case
 * collection identifier to collection, filled with three well-known entries
 * at start-up, then with the saved collections, and extended on demand by
 * every lookup that misses (the loading cache's create-on-miss).
 *
 * Collections are modelled by their identity only; the state they carry
 * (their loaded subjects) is kept beside the table, keyed by that identity.
 */
module CollectionTable {
  import opened CaseFolding

  /** Which collection object an entry of the table refers to. */
  datatype CollectionId =
    | UserManager                      // supplied by the plugin's user manager
    | GroupManager                     // supplied by the plugin's group manager
    | DefaultsCollection               // the service's own defaults collection
    | Persisted(identifier: string)    // a collection built by the cache loader or from storage

  type Table = map<string, CollectionId>

  const UserKey: string := "user"
  const GroupKey: string := "group"
  const DefaultsKey: string := "defaults"

  /** One of the three keys the table is pre-populated with. */
  predicate IsSeedKey(k: string) {
    k == UserKey || k == GroupKey || k == DefaultsKey
  }

  /** The table right after the three pre-populating puts. */
  function Seeds(): (t: Table)
    ensures t.Keys == {UserKey, GroupKey, DefaultsKey}
    ensures t[UserKey] == UserManager && t[GroupKey] == GroupManager && t[DefaultsKey] == DefaultsCollection
  {
    map[UserKey := UserManager, GroupKey := GroupManager, DefaultsKey := DefaultsCollection]
  }

  /**
   * The collection a well-formed table holds under key `k`: one of the three
   * seeded collections for their keys, a persisted collection named `k`
   * otherwise.
   */
  function EntryFor(k: string): (c: CollectionId)
    ensures IsSeedKey(k) ==> c == Seeds()[k]
    ensures !IsSeedKey(k) ==> c == Persisted(k)
  {
    if k == UserKey then UserManager
    else if k == GroupKey then GroupManager
    else if k == DefaultsKey then DefaultsCollection
    else Persisted(k)
  }

  /**
   * The table invariant: the three seeded keys are present, every key is
   * lower-case, and every key holds the collection `EntryFor` gives it (so
   * the seeded entries keep their collections and no collection sits under
   * two keys).
   */
  predicate WellFormed(t: Table) {
    && UserKey in t && GroupKey in t && DefaultsKey in t
    && forall k :: k in t ==> IsLower(k) && t[k] == EntryFor(k)
  }

  /** The collection `getCollection(s)` returns when run on table `t`. */
  function CollectionFor(t: Table, s: string): CollectionId {
    var k := Lower(s);
    if k in t then t[k] else Persisted(k)
  }

  /** The table after `getCollection(s)`: the lower-cased key is added on a miss, nothing else changes. */
  function AfterLookup(t: Table, s: string): Table {
    var k := Lower(s);
    if k in t then t else t[k := Persisted(k)]
  }

  /**
   * `getCollection(s)` is create-on-miss: afterwards the lower-cased key is
   * present and holds the collection returned, the keys already present keep
   * their collections, and no other key is added.
   */
  lemma AfterLookupSpec(t: Table, s: string)
    ensures AfterLookup(t, s).Keys == t.Keys + {Lower(s)}
    ensures forall k :: k in t ==> AfterLookup(t, s)[k] == t[k]
    ensures AfterLookup(t, s)[Lower(s)] == CollectionFor(t, s)
    ensures Lower(s) !in t ==> CollectionFor(t, s) == Persisted(Lower(s))
  {
  }

  /** A lookup keeps the table well-formed. */
  lemma AfterLookupWellFormed(t: Table, s: string)
    requires WellFormed(t)
    ensures WellFormed(AfterLookup(t, s))
  {
    var k := Lower(s);
    LowerSpec(s);
    if k !in t {
      assert !IsSeedKey(k);
    }
  }

  /** `getCollection(s)` and `getCollection(Lower(s))` find the same entry and change the table alike. */
  lemma LookupIgnoresCase(t: Table, s: string)
    ensures CollectionFor(t, s) == CollectionFor(t, Lower(s))
    ensures AfterLookup(t, s) == AfterLookup(t, Lower(s))
  {
    LowerIdempotent(s);
  }

  /** "Group" and "group" name the same entry. */
  lemma GroupIsCaseInsensitive(t: Table)
    ensures CollectionFor(t, "Group") == CollectionFor(t, "group")
  {
    assert Lower("Group") == "group";
    assert Lower("group") == "group";
  }

  /**
   * A second lookup, with the same identifier or any other spelling that
   * lower-cases to it, returns the collection of the first and adds nothing.
   */
  lemma LookupIdempotent(t: Table, s: string, s': string)
    requires Lower(s') == Lower(s)
    ensures CollectionFor(AfterLookup(t, s), s') == CollectionFor(t, s)
    ensures AfterLookup(AfterLookup(t, s), s') == AfterLookup(t, s)
  {
  }

  /** The lower-cased forms of a list of identifiers. */
  function LowerAll(ids: seq<string>): set<string> {
    set x | x in ids :: Lower(x)
  }

  /**
   * The constructor's loading loop over the saved identifiers: each one is
   * skipped when its lower-cased form is already a key, and otherwise put
   * under that form. This is a create-on-miss lookup of each identifier.
   */
  function LoadSaved(t: Table, saved: seq<string>): Table
    decreases saved
  {
    if saved == [] then t else LoadSaved(AfterLookup(t, saved[0]), saved[1..])
  }

  /**
   * What loading the saved identifiers does to a table: it adds exactly the
   * lower-cased identifiers, leaves every entry already present as it was,
   * and maps every added key to a fresh persisted collection of that name.
   */
  lemma {:induction false} LoadSavedSpec(t: Table, saved: seq<string>)
    ensures LoadSaved(t, saved).Keys == t.Keys + LowerAll(saved)
    ensures forall k :: k in t ==> LoadSaved(t, saved)[k] == t[k]
    ensures forall k :: k in LoadSaved(t, saved) && k !in t ==> LoadSaved(t, saved)[k] == Persisted(k)
    decreases saved
  {
    if saved != [] {
      var t' := AfterLookup(t, saved[0]);
      LoadSavedSpec(t', saved[1..]);
      assert LowerAll(saved) == {Lower(saved[0])} + LowerAll(saved[1..]) by {
        assert forall x :: x in saved <==> x == saved[0] || x in saved[1..];
      }
    } else {
      assert LowerAll(saved) == {};
    }
  }

  /** Loading saved identifiers keeps the table well-formed. */
  lemma {:induction false} LoadSavedWellFormed(t: Table, saved: seq<string>)
    requires WellFormed(t)
    ensures WellFormed(LoadSaved(t, saved))
    decreases saved
  {
    if saved != [] {
      AfterLookupWellFormed(t, saved[0]);
      LoadSavedWellFormed(AfterLookup(t, saved[0]), saved[1..]);
    }
  }

  /**
   * The table right after construction: "user", "group" and "defaults" map
   * to the user manager, the group manager and the defaults collection
   * whatever was saved, and the only other keys are the lower-cased saved
   * identifiers, each mapped to a persisted collection of that name.
   */
  lemma ConstructedTable(saved: seq<string>)
    ensures var t := LoadSaved(Seeds(), saved);
      && WellFormed(t)
      && t[UserKey] == UserManager && t[GroupKey] == GroupManager && t[DefaultsKey] == DefaultsCollection
      && t.Keys == {UserKey, GroupKey, DefaultsKey} + LowerAll(saved)
      && (forall k :: k in t && !IsSeedKey(k) ==> t[k] == Persisted(k))
  {
    assert WellFormed(Seeds()) by {
      assert IsLower(UserKey) && IsLower(GroupKey) && IsLower(DefaultsKey);
    }
    LoadSavedSpec(Seeds(), saved);
    LoadSavedWellFormed(Seeds(), saved);
  }
}
