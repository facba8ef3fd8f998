# LuckPerms Sponge permission service: collection and description registry

This project models the core of the LuckPerms permission service for Sponge
(`LuckPermsService`). It covers:

- the loading cache of subject collections, keyed by lower-cased identifier,
  pre-populated with "user", "group" and "defaults" and then filled with the
  saved collections at start-up;
- create-on-miss lookups by `getCollection`, and the detached snapshot that
  `getLoadedCollections` returns;
- the set of registered permission descriptions, the lookup by id and the
  merged view that adds a placeholder for every permission known to the
  permission vault;
- `invalidateAllCaches`, which makes every loaded subject of every loaded
  collection drop its caches and then clears the calculator factory.

Modules:

- `CaseFolding` (case_folding.dfy): the lower-casing applied to identifiers.
- `CollectionTable` (collection_table.dfy): the table as a value and the
  specification functions for lookup and start-up loading.
- `Descriptions` (descriptions.dfy): descriptions, `Register` and `Merged`.
- `PermissionService` (service.dfy): the `Service` class. Its fields are the
  table, the subjects each collection has loaded, the registered descriptions
  and a count of calculator-factory invalidations. Its methods are proved
  against the functions of the other modules.

A collection is represented by its identity (`CollectionId`). The state it
carries (its loaded subjects) is a separate field keyed by the collection's
key. A snapshot of the table therefore names the same collections as the
live table, as the Java snapshot shares the collection objects.

## Model

| member | source | states |
|---|---|---|
| CaseFolding.LowerChar | sponge/src/main/java/me/lucko/luckperms/sponge/service/LuckPermsService.java:191 | a folded character is never an upper-case ASCII letter; 'A'..'Z' move up by 32 and every other character is unchanged |
| CaseFolding.Lower | sponge/src/main/java/me/lucko/luckperms/sponge/service/LuckPermsService.java:191 | `s.toLowerCase()` keeps the length of the identifier; its per-character meaning and its result being lower-case are stated by `LowerSpec` |
| CaseFolding.LowerSpec | sponge/src/main/java/me/lucko/luckperms/sponge/service/LuckPermsService.java:191 | lower-casing folds each character in place and leaves no upper-case letter |
| CaseFolding.LowerOfLower | sponge/src/main/java/me/lucko/luckperms/sponge/service/LuckPermsService.java:191 | an identifier that is already lower-case is its own lower-case form |
| CaseFolding.LowerIdempotent | sponge/src/main/java/me/lucko/luckperms/sponge/service/LuckPermsService.java:191 | lower-casing twice equals lower-casing once |
| CollectionTable.Seeds | sponge/src/main/java/me/lucko/luckperms/sponge/service/LuckPermsService.java:119-122 | the pre-populated table has exactly the keys "user", "group" and "defaults", mapped to the user manager, the group manager and the defaults collection |
| CollectionTable.EntryFor | sponge/src/main/java/me/lucko/luckperms/sponge/service/LuckPermsService.java:103-104 | a seeded key holds its seeded collection; any other key holds a persisted collection named by that key |
| CollectionTable.CollectionFor | sponge/src/main/java/me/lucko/luckperms/sponge/service/LuckPermsService.java:189-192 | the collection `getCollection(s)` returns; `AfterLookupSpec` states that it is the entry under the lower-cased key, or a new persisted collection on a miss |
| CollectionTable.AfterLookup | sponge/src/main/java/me/lucko/luckperms/sponge/service/LuckPermsService.java:103-104 | the table after `getCollection(s)`; `AfterLookupSpec` states that it is create-on-miss and adds no other key |
| CollectionTable.AfterLookupSpec | sponge/src/main/java/me/lucko/luckperms/sponge/service/LuckPermsService.java:103-104 | a lookup is create-on-miss: the lower-cased key is present afterwards and holds the returned collection; existing entries keep their values; no other key is added; a miss returns a new persisted collection |
| CollectionTable.AfterLookupWellFormed | sponge/src/main/java/me/lucko/luckperms/sponge/service/LuckPermsService.java:189-192 | a lookup keeps the table well-formed: seeded keys present, keys lower-case, each key holding its own collection |
| CollectionTable.LookupIgnoresCase | sponge/src/main/java/me/lucko/luckperms/sponge/service/LuckPermsService.java:189-192 | a lookup of `s` and a lookup of its lower-cased form return the same collection and leave the same table |
| CollectionTable.GroupIsCaseInsensitive | sponge/src/main/java/me/lucko/luckperms/sponge/service/LuckPermsService.java:189-192 | "Group" and "group" return the same collection |
| CollectionTable.LookupIdempotent | sponge/src/main/java/me/lucko/luckperms/sponge/service/LuckPermsService.java:189-192 | a second lookup with any spelling that lower-cases to the same key returns the first lookup's collection and adds nothing |
| CollectionTable.LoadSaved | sponge/src/main/java/me/lucko/luckperms/sponge/service/LuckPermsService.java:124-136 | the start-up loop over the saved identifiers; `LoadSavedSpec` states which keys it adds and that it keeps existing entries |
| CollectionTable.LoadSavedSpec | sponge/src/main/java/me/lucko/luckperms/sponge/service/LuckPermsService.java:124-136 | loading the saved identifiers adds exactly their lower-cased forms, skips keys already present (their entries are kept), and maps each added key to a persisted collection of that name |
| CollectionTable.LoadSavedWellFormed | sponge/src/main/java/me/lucko/luckperms/sponge/service/LuckPermsService.java:124-136 | loading the saved identifiers keeps the table well-formed |
| CollectionTable.ConstructedTable | sponge/src/main/java/me/lucko/luckperms/sponge/service/LuckPermsService.java:119-136 | after start-up the seeded keys keep their seeded collections whatever was saved; the only other keys are the lower-cased saved identifiers, each holding a persisted collection |
| Descriptions.Placeholder | sponge/src/main/java/me/lucko/luckperms/sponge/service/LuckPermsService.java:224 | the placeholder synthesised for a known permission carries that permission as its id, no text and no owner |
| Descriptions.Register | sponge/src/main/java/me/lucko/luckperms/sponge/service/LuckPermsService.java:202 | adding a description keeps every registered one; the id is then registered; an already-registered id leaves the set unchanged; otherwise exactly the new description is added; ids stay unique |
| Descriptions.Merged | sponge/src/main/java/me/lucko/luckperms/sponge/service/LuckPermsService.java:219-233 | the set `getDescriptions()` returns; `MergedContents` states its contents and `MergedKeepsRegistered` that registered descriptions win |
| Descriptions.MergedContents | sponge/src/main/java/me/lucko/luckperms/sponge/service/LuckPermsService.java:219-233 | the merged view holds every registered description and covers every known permission; any other element is the placeholder of a known permission that no registered description covers |
| Descriptions.MergedKeepsRegistered | sponge/src/main/java/me/lucko/luckperms/sponge/service/LuckPermsService.java:226-229 | a placeholder never replaces a registered description with the same id, and ids in the merged view stay unique |
| PermissionService.FromStorage | sponge/src/main/java/me/lucko/luckperms/sponge/service/LuckPermsService.java:131-132 | a collection loaded from storage holds exactly the subject ids stored for it (none when nothing is stored), and none of them has cached anything |
| PermissionService.Invalidated | sponge/src/main/java/me/lucko/luckperms/sponge/service/LuckPermsService.java:244-246 | invalidating one collection keeps its subjects and leaves none of them cached |
| PermissionService.InvalidatedAll | sponge/src/main/java/me/lucko/luckperms/sponge/service/LuckPermsService.java:243-247 | invalidating every collection keeps the collections and their subjects and leaves no subject cached |
| PermissionService.Service.constructor | sponge/src/main/java/me/lucko/luckperms/sponge/service/LuckPermsService.java:106-137 | after start-up the table is the seeded table with the saved collections loaded into it; user and group keep their managers' subjects; defaults and each saved collection hold their stored subjects; no descriptions are registered |
| PermissionService.Service.LoadSavedCollections | sponge/src/main/java/me/lucko/luckperms/sponge/service/LuckPermsService.java:124-136 | the start-up loop computes the loading of the saved identifiers; entries already present keep their subjects; each added collection holds its stored subjects |
| PermissionService.Service.LoadedCollections | sponge/src/main/java/me/lucko/luckperms/sponge/service/LuckPermsService.java:194-197 | the snapshot equals the current table and is well-formed; being a value, later changes to the service do not reach it |
| PermissionService.Service.IsValidIdentifier | sponge/src/main/java/me/lucko/luckperms/sponge/service/LuckPermsService.java:183-186 | every identifier is accepted |
| PermissionService.Service.GetCollection | sponge/src/main/java/me/lucko/luckperms/sponge/service/LuckPermsService.java:188-192 | returns the collection for the lower-cased identifier; the table becomes the create-on-miss table; a miss adds an empty collection; nothing else changes and the invariant is kept |
| PermissionService.Service.RegisterPermissionDescription | sponge/src/main/java/me/lucko/luckperms/sponge/service/LuckPermsService.java:199-204 | returns the new description; the registered set becomes `Register` of the old set, so the id is registered; nothing else changes |
| PermissionService.Service.GetDescription | sponge/src/main/java/me/lucko/luckperms/sponge/service/LuckPermsService.java:206-216 | returns none exactly when no registered description has the id; otherwise returns a registered description with that id |
| PermissionService.Service.GetDescriptions | sponge/src/main/java/me/lucko/luckperms/sponge/service/LuckPermsService.java:218-233 | returns exactly the merged view of the registered descriptions and the known permissions |
| PermissionService.Service.InvalidateSubjects | sponge/src/main/java/me/lucko/luckperms/sponge/service/LuckPermsService.java:244-246 | every subject of one collection drops its caches; the subjects are kept |
| PermissionService.Service.InvalidateAllCaches | sponge/src/main/java/me/lucko/luckperms/sponge/service/LuckPermsService.java:241-250 | every loaded subject of every loaded collection drops its caches; the table and the descriptions are unchanged; the factory is cleared once |
| PermissionService.SnapshotIsDetached | sponge/src/main/java/me/lucko/luckperms/sponge/service/LuckPermsService.java:194-197 | a snapshot taken before a lookup that misses lacks the entry the lookup adds to the live table |
| PermissionService.GroupLookups | sponge/src/main/java/me/lucko/luckperms/sponge/service/LuckPermsService.java:189-192 | "Group" and "group" both return the group manager's collection and add nothing |
| PermissionService.RegisterThenDescribe | sponge/src/main/java/me/lucko/luckperms/sponge/service/LuckPermsService.java:199-216 | after a description is registered under an id, `getDescription` of that id finds a registered description with it |

## Left out

- Unicode and locale rules of `toLowerCase`: only ASCII 'A'..'Z' are folded. Java folds many more characters, and its result can differ in length.
- `Objects.requireNonNull` checks: Dafny strings cannot be null.
- Concurrency: the Caffeine cache's thread safety and single-flight loading, and the concurrent key set of descriptions. Every operation is modelled as atomic.
- Storage I/O: the saved collection ids and the stored subject ids per collection are inputs. The defaults collection's `loadAll` is taken to load `stored["defaults"]`.
- The permission vault's known permissions are an input to `GetDescriptions`.
- The user and group managers' loaded subjects are constructor inputs. Their own caching and loading are not part of this model.
- Description equality: two descriptions are taken to be equal exactly when their ids are equal. `SimplePermissionDescription` is not part of this model. The description text and owner are opaque strings.
- `PersistedCollection` is not part of this model. Its `getIdentifier` is taken to return the identifier it was built with.
- A collection the cache loader builds on a miss is taken to start with no loaded subjects. `PersistedCollection`'s constructor is not part of this model.
- No operation loads subjects after start-up, so a subject can be cached only if it came in with the user or group managers' subjects.
- Subjects are reduced to whether they currently hold cached results. They are values in a map, not shared objects, so `invalidateCaches` is modelled as a map update.
- The calculator factory's `invalidateAll` is modelled as a counter of invalidations.
- PermissionService.Service.InvalidateAllCaches: the outer loop visits the table's keys, not the Java `values()` view. Its loop works on a local copy that is written back at the end.
- PermissionService.Service.LoadSavedCollections: the constructor's loop is a separate method working on local copies of the table and the subjects.
- The Sponge proxy (`sponge()`), `registerContextCalculator` and the context manager: these are adapters into Sponge and into code outside this service.
- Plain getters (`getPlugin`, `getContextManager`, `getReferenceFactory`, `getStorage`, `getUserSubjects`, `getGroupSubjects`, `getDefaultSubjects`, `getRootDefaults`): they return fields or the plugin's objects and hold no logic.
- The command layer (`ParentAdd`) and permission resolution.
