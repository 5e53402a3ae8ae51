# entropic-bond: the document mapping layer and the auth registries

This project models the object-document mapping layer of entropic-bond in Dafny and proves
properties of the model. The layer is made of `Store`, `Model`, the query builder and the
in-memory data source. The model follows the behaviour that `src/store/model.spec.ts` asserts,
including how the test registry places `TestUser`, `DerivedUser` and `SubClass`. The
implementation files of that layer are not part of this model. The project also models the two
registries that hold the authentication facades `Auth` and `ServerAuth` with their lazily
created instance.

- `wrappers.dfy` (`Wrappers`): `Option` and `Result`.
- `documents.dfy` (`Documents`): in-memory documents and their reference slots. A slot is
  either a placeholder (`wasLoaded` false) or a loaded instance. The module also holds stored
  records with their `__className` tag, and the serializer (`ToRecord`) and hydrator
  (`FromRecord`) with their round trip.
- `query.dfy` (`Queries`): the query builder (`find`, `where`, `orderBy`, `limit`, the
  `query({ operations })` object form). Evaluation is filter, then sort, then take over the rows
  of a collection.
- `store.dfy` (`Stores`): the class registry, the raw collections, and the operations on them:
  `getModel`, `findById`, the save cascade as a log of record writes, `delete` and
  `Store.populate`. The `Store` class holds the registry and the collections. Its `Save`,
  `Delete`, `Scan`, `GetDocs` and `QueryDocs` methods are proved against the functions.
- `auth.dfy` (`Authentication`): `Auth`, its subscribers, and the registry of the registered
  service and cached instance.
- `server_auth.dfy` (`ServerAuthentication`): the `ServerAuth` registry.

Modelling decisions:

- **Documents are values.** A save and a load work on values. Populating returns the filled
  reference. `PopulateField` gives the parent document as it reads after the in-place fill.
- **Save is a write log.** `SaveLog` lists the writes: first each referenced loaded instance
  with its own cascade, field by field and list element by list element, then the document
  itself into the collection of its base class. `SaveDoc` applies the log, and a later write to
  the same location wins.
- **Registry.** `Registry` maps every class name to the collection of its base class, so a
  derived class shares its parent's collection.

## Model

| member | source | states |
|---|---|---|
| `Stores.ModelByNameOrInstance` | src/store/model.spec.ts:26-29 | the model resolved from an instance is the model resolved from the name of its class |
| `Stores.GetModel` | src/store/model.spec.ts:23-28 | a class name or an instance resolves to a model exactly when its class is registered, and the model is bound to the collection registered for that class |
| `Stores.TestUserModel` | src/store/model.spec.ts:26-32 | in the test registry `TestUser` and its instances (also `DerivedUser` ones) resolve to collection `'TestUser'`, and the registry is well formed |
| `Stores.DerivedClassSharesBaseModel` | src/store/model.spec.ts:141-152 | in a well-formed registry a class resolves to the same model as its base class, the base's own collection |
| `Stores.FindById` | src/store/model.spec.ts:34-52 | absent id gives `None` (never an error) and only then; a present id gives an instance with that id, the stored class and fields, and every reference unloaded |
| `Stores.FoundClassBelongsToModel` | src/store/model.spec.ts:154-159 | in well-typed data a found document's class is registered under the model's collection, so a `DerivedUser` record comes back as a `DerivedUser` |
| `Documents.FromRecord` | src/store/model.spec.ts:154-159 | hydration keeps id, class tag and plain fields (such as `salary`), and turns stored keys into placeholders, list length and order kept |
| `Documents.ToRecord` | src/store/model.spec.ts:143-152 | serialization stamps the runtime class, copies plain fields, and stores each reference as its target's key, lists element by element |
| `Documents.RoundTrip` | src/store/model.spec.ts:187-194 | hydrating the record of a document gives it back with its references reduced to placeholders carrying the original keys |
| `Documents.RecordRoundTrip` | src/store/model.spec.ts:154-159 | serializing a hydrated record gives back exactly the stored record |
| `Documents.HydratedIsShallow` | src/store/model.spec.ts:187-194 | a hydrated document has nothing left to reduce: all its references are already placeholders |
| `Stores.Remove` | src/store/model.spec.ts:75-80 | after removal the location is empty, every other location is unchanged, and removing an absent id changes nothing |
| `Stores.Put` | src/store/model.spec.ts:64-73 | a write stores the record at its location and changes no other location |
| `Stores.SaveLog` | src/store/model.spec.ts:164-175 | the last write of a save is the document's own record into its base class's collection, and every write is into the collection of its record's class |
| `Stores.LastWrite` | src/store/model.spec.ts:164-175 | the result, if any, is the record of a write to that location after which the log writes there no more; there is none exactly when no write goes to that location |
| `Stores.ApplyAllLookup` | src/store/model.spec.ts:164-175 | after a log of writes a location holds its last write, or its old record when no write went there |
| `Stores.SaveDoc` | src/store/model.spec.ts:64-73 | after `save(d)` the base collection of `d`'s class holds `d`'s record (class tag, plain fields, reference keys) under `d`'s id |
| `Stores.SaveThenFindById` | src/store/model.spec.ts:186-194 | finding a saved document by id returns it with its references as placeholders |
| `Stores.ReloadedReferencesArePlaceholders` | src/store/model.spec.ts:211-221 | a reloaded single reference is an unloaded placeholder with the original key; a reloaded list has the same length and the original keys in order, all unloaded |
| `Stores.ReferencedDocIsWritten` | src/store/model.spec.ts:164-175 | saving `d` carries out the whole save of every instance `d` holds directly, so each is written with its own record into its own class's collection |
| `Stores.DirectReferenceIsReachable` | src/store/model.spec.ts:168-173 | a document held directly is reachable, and everything reachable from it is reachable from the holder |
| `Stores.ReachableDocIsWritten` | src/store/model.spec.ts:164-175 | saving `d` carries out the whole save of every document reachable from `d` at any depth, its own record included |
| `Stores.SaveKeepsReferencesResolvable` | src/store/model.spec.ts:204-209 | after `save(d)` every document reachable from `d`, at any depth, is stored under its id in its own class's collection |
| `Stores.SaveStoresReferencedDoc` | src/store/model.spec.ts:177-185 | a document reachable from `d` is stored with its class tag and fields, unless the same save writes a different record under the same id |
| `Stores.SaveChangesOnlyWrittenLocations` | src/store/model.spec.ts:64-73 | a save leaves every location it does not write unchanged |
| `Stores.SaveKeepsWellTyped` | src/store/model.spec.ts:143-152 | a save keeps every record in the collection of the base of its class |
| `Stores.RemoveKeepsWellTyped` | src/store/model.spec.ts:75-80 | a delete keeps every remaining record in the collection of the base of its class |
| `Stores.Populate` | src/store/model.spec.ts:196-202 | populating fails exactly when the target's class is unregistered or its record is absent; otherwise the result is loaded and carries the target's id, stored class and fields |
| `Stores.PopulateList` | src/store/model.spec.ts:223-229 | each element of a list is populated on its own, a failed element is left as it was, and the flag says whether all succeeded |
| `Stores.PopulateField` | src/store/model.spec.ts:196-202 | populating field `name` of a document keeps its id, class, plain fields and other fields, each field named `name` becomes what populating it gives, and the flag says whether all of them succeeded |
| `Stores.PopulateOne` | src/store/model.spec.ts:196-202 | a field of another name is untouched; a single reference becomes the populated reference or stays as it was on failure; a list becomes the populated list with its flag |
| `Stores.PopulateIsIdempotent` | src/store/model.spec.ts:196-202 | in well-typed data, populating an already populated reference gives the same result again |
| `Stores.SaveReloadPopulateOne` | src/store/model.spec.ts:196-202 | save, reload, populate a single reference: it becomes loaded with the referenced document's stored fields |
| `Stores.SaveReloadPopulateMany` | src/store/model.spec.ts:223-229 | save, reload, populate a list: every element succeeds and, in order, holds the stored fields of the original element |
| `Stores.PopulateReloadedFieldOne` | src/store/model.spec.ts:196-202 | save, reload, then populate the field through the parent: the field holds the loaded referenced document, `wasLoaded` true |
| `Stores.PopulateReloadedFieldMany` | src/store/model.spec.ts:223-229 | save, reload, then populate the list field through the parent: each element, in order, holds the loaded original element, and populating succeeds |
| `Stores.HydrateAll` | src/store/model.spec.ts:93 | query results are hydrated one by one, each under its own id |
| `Stores.ScanGetMembership` | src/store/model.spec.ts:97-102 | whatever the enumeration order, an unlimited query returns a document exactly when it is stored and meets every condition |
| `Queries.Filter` | src/store/model.spec.ts:97-102 | filtering keeps exactly the rows meeting every condition, with their multiplicity and never more rows |
| `Queries.EqMatch` | src/store/model.spec.ts:98 | `==` matches a value against itself, is plain equality against a non-object, and against an object needs a stored object having at least its keys |
| `Queries.Compare` | src/store/model.spec.ts:119-123 | `==` is the object-aware match and `!=` its negation; ordering operators hold only between integers, `<=` meaning less or equal and `>=` greater or equal |
| `Queries.Sort` | src/store/model.spec.ts:241-253 | sorting yields a permutation of the rows, ordered by the key |
| `Queries.Insert` | src/store/model.spec.ts:241-253 | inserting into a sorted sequence keeps it sorted and adds exactly the one row |
| `Queries.SortIfOrdered` | src/store/model.spec.ts:241-253 | without an order the rows are untouched; with one they are sorted, always a permutation |
| `Queries.Take` | src/store/model.spec.ts:233-239 | a limit keeps a prefix of length `min(n, count)`; no limit keeps everything |
| `Queries.Select` | src/store/model.spec.ts:104-112 | every result is a stored row meeting every condition, sorted when ordered, within the limit; without a limit the results are the filtered rows |
| `Queries.Get` | src/store/model.spec.ts:105-108 | `get()` returns stored rows meeting every accumulated condition, sorted by the key when ordered, within the limit, and all matching rows when unlimited |
| `Queries.Find` | src/store/model.spec.ts:59 | `find()` starts with no condition, no order and no limit |
| `Queries.Where` | src/store/model.spec.ts:105-107 | `where` adds its condition to the set of conditions and keeps order and limit |
| `Queries.OrderBy` | src/store/model.spec.ts:242 | `orderBy` sets the single sort key and keeps conditions and limit |
| `Queries.Limit` | src/store/model.spec.ts:235 | `limit(n)` sets the limit and keeps conditions and order |
| `Queries.RunQuery` | src/store/model.spec.ts:84-91 | `query({ operations })` returns stored rows meeting every operation, and all of them |
| `Queries.FilterNoConditions` | src/store/model.spec.ts:58-61 | no condition keeps every row |
| `Queries.GetWithoutClauses` | src/store/model.spec.ts:58-61 | `find().get()` returns every row in enumeration order |
| `Queries.NoMatchIsEmpty` | src/store/model.spec.ts:54-56 | a condition no row meets yields the empty result |
| `Queries.GetMembership` | src/store/model.spec.ts:97-102 | with no limit a row is in the result exactly when it is stored and meets every `where` condition |
| `Queries.FilterConjunction` | src/store/model.spec.ts:104-112 | filtering by a union of conditions is filtering by one set and then the other |
| `Queries.WhereIsConjunctive` | src/store/model.spec.ts:104-112 | with no order or limit, one more `where` filters the previous result by its condition |
| `Queries.TwoWheresAreAnd` | src/store/model.spec.ts:104-112 | a row passes two chained `where` calls exactly when it is stored and meets both |
| `Queries.QueryObjectIsWhereChain` | src/store/model.spec.ts:83-102 | the `query({ operations })` form returns the same as the chain of `where` calls with the same conditions |
| `Queries.RunQueryMembership` | src/store/model.spec.ts:83-95 | a row is in a query-object result exactly when it is stored and meets each field's operation |
| `Queries.SubPropertiesMatch` | src/store/model.spec.ts:114-137 | `==` with an object matches a stored object containing those sub-properties with equal values |
| `Queries.NeIsNotEq` | src/store/model.spec.ts:121-123 | on a present field `!=` holds exactly when `==` does not |
| `Queries.LimitIsPrefix` | src/store/model.spec.ts:233-239 | `limit(n)` gives exactly `n` results when more match, all of them otherwise, and a prefix of the unlimited result |
| `Queries.OrderByAscending` | src/store/model.spec.ts:241-246 | after `orderBy(field)` integer keys never decrease along the result |
| `Queries.OrderByDescending` | src/store/model.spec.ts:248-253 | after `orderBy(field, 'desc')` integer keys never increase along the result |
| `Queries.OrderByPermutes` | src/store/model.spec.ts:241-253 | ordering changes only the order of an unlimited result, not its contents |
| `Queries.OrderByLastWins` | src/store/model.spec.ts:242 | `orderBy` keeps a single key: a later call replaces an earlier one |
| `Stores.Store.constructor` | src/store/model.spec.ts:12-13 | a store starts with the given registry and data, and is valid exactly when the registry is well formed and the data well typed |
| `Stores.Store.UseDataSource` | src/store/model.spec.ts:13 | `useDataSource` replaces the data every model reads and writes; the store is then valid exactly when the new data is well typed under a well-formed registry |
| `Stores.Store.Save` | src/store/model.spec.ts:164-175 | the new collections are the old ones with the save log applied, and well-typed data stays well typed |
| `Stores.Store.SaveField` | src/store/model.spec.ts:168-173 | saving one reference field applies that field's part of the log |
| `Stores.Store.SaveList` | src/store/model.spec.ts:172-173 | saving a list of references applies the cascades of its elements in order |
| `Stores.Store.SaveRef` | src/store/model.spec.ts:168-169 | a loaded instance is saved with its cascade; a placeholder writes nothing |
| `Stores.Store.Delete` | src/store/model.spec.ts:75-80 | the new collections are the old ones with the id removed, and well-typed data stays well typed |
| `Stores.Store.Scan` | src/store/model.spec.ts:58-61 | the rows list every record of the collection exactly once under its id |
| `Stores.Store.GetDocs` | src/store/model.spec.ts:97-112 | the documents are the hydrated query result over some enumeration of the collection |
| `Stores.Store.QueryDocs` | src/store/model.spec.ts:83-95 | the documents are the hydrated query-object result over some enumeration of the collection |
| `Authentication.Auth.constructor` | src/auth/auth.ts:24-30 | a new instance has no subscribers, and is appended exactly once to the listeners of the service it was built for |
| `Authentication.Auth.OnAuthStateChange` | src/auth/auth.ts:55-57 | the callback joins the subscribers |
| `Authentication.Auth.RemoveAuthStateChange` | src/auth/auth.ts:59-61 | the callback leaves the subscribers |
| `Authentication.Auth.AuthStateChanged` | src/auth/auth.ts:71-73 | a reported state change is delivered to all current subscribers |
| `Authentication.AuthRegistry.constructor` | src/auth/auth.ts:75-76 | at first there is no service and no instance |
| `Authentication.AuthRegistry.RegisterAuthService` | src/auth/auth.ts:32-37 | the same service changes nothing; a different one replaces it and clears the cached instance; the cached instance stays bound to the registered service |
| `Authentication.AuthRegistry.Instance` | src/auth/auth.ts:39-41 | the cached instance is returned; otherwise a fresh one, subscribed once to the registered service, is cached; with no service it fails |
| `Authentication.AuthRegistry.InstanceTwice` | src/auth/auth.ts:39-41 | two consecutive reads of `instance` give the same result |
| `ServerAuthentication.ServerAuthRegistry.constructor` | src/server-auth/server-auth.ts:39-40 | at first there is no service and no instance |
| `ServerAuthentication.ServerAuthRegistry.RegisterServerAuthService` | src/server-auth/server-auth.ts:16-21 | the same service changes nothing; a different one replaces it and clears the cached instance |
| `ServerAuthentication.ServerAuthRegistry.Instance` | src/server-auth/server-auth.ts:23-25 | the cached instance is returned, otherwise a fresh one is cached; it never fails, registered service or not |
| `ServerAuthentication.ServerAuthRegistry.InstanceTwice` | src/server-auth/server-auth.ts:23-25 | two consecutive reads of `instance` give the same object |

## Left out

- Promises and `await`: each operation is one sequential step. Concurrent saves and the unordered completion of list population are not modelled.
- The in-memory data source and its fixture data are not part of this model. The raw data is a map from collection name to a map from id to record.
- Properties hold over arbitrary collections. No fixture users or ages appear in any contract.
- How ids are generated is not part of this model: a document carries its id.
- `Stores.Store.GetDocs`, `Stores.Store.QueryDocs`: the data source's enumeration order of a collection is not known, so these promise the result for some enumeration of the collection.
- `Stores.Populate`: populating works on values, so the in-place update of a placeholder object, and every alias of that object seeing the update, is not modelled. `PopulateField` gives the parent document as it reads afterwards.
- Stored references: a stored reference holds the referenced class name as well as the id, so a placeholder knows its class and collection. The tests never inspect the stored shape of a reference.
- `Stores.FindById`: a stored `__className` that is not registered is not reported as an error when read; the hydrated document carries the stored tag.
- `Stores.Store.Save`: the model assumes that every class in the saved document tree is registered and that the root's class belongs to the model's collection. TypeScript's typing of `Model<T>.save` only makes the root a `T`; registration is runtime state the source does not show, so the precondition is an assumption of the model.
- `Queries.Compare`: ordering comparisons (`<`, `<=`, `>`, `>=`) hold only between integers. Strings, floats and mixed types are not ordered. Sort stability is not promised.
- The `Observable` helper is not part of this model. Subscribers form a set of callback names, and notifying records one delivery to all current subscribers.
- How a service reports state changes to its listeners is part of the service, which cannot be seen. Only the subscription made by the constructor and the forwarding in `authStateChanged` are modelled.
- The delegating methods (`signUp`, `login`, `logout`, `linkAdditionalProvider`, `unlinkProvider`, `getUser`, `updateUser`, `setCustomCredentials`) only forward to the service, so they are not modelled.
- TypeScript `this`-polymorphism of the static fields in subclasses of `Auth` and `ServerAuth` is not modelled. There is one registry per facade.
