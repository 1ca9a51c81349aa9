# MyGo storefront: host dispatch, page resolution and create-with-uniqueness

This project models the dispatch core of a multi-tenant storefront backend
written in Go.

- **Host registry.** A process-wide map from request hostname to a store
  application. `getHostApp` builds it lazily. `updateHostApp` builds it by
  joining every host row with every store row, hosts outer and stores inner,
  into a fresh map.
- **Page resolver.** `displayPage` does a first-match linear search, by exact
  name, over a store's pages. It then renders the matched page through its own
  template.
- **Create operations.** These cover Collection, CustomField, Product, Page and
  Theme. Each one overwrites both timestamps from the clock, then inserts into
  a table guarded by its `unique(...)` indexes. An insert error whose text
  contains `UNIQUE constraint failed:` is turned into an already-exists
  `appError` with code 4001 and an entity-specific message. Any other error is
  returned unchanged, and success returns nil.
- **Per-store scans.** `getPages` and `getThemes` return the rows whose StoreId
  matches.

Modules:

- `Wrappers`: Option and Result.
- `Text`: `strings.Contains`, proved equal to a declarative "occurs at some
  position" definition.
- `Records`: the abstract record store. A table is the sequence of its rows,
  and each row has a set of uniqueness keys. This module also holds the
  generic create (stamp, insert, translate), the uniqueness invariant it
  preserves, and the StoreId filter.
- `Catalog`, `Pages`, `Themes`: the entities and their operations.
- `HostRegistry`: the join, the nested-loop method, and the Unbuilt/Built latch.

The model abstracts these collaborators:

- `Store.CreateApp()` is the parameter `createApp: Store -> App`, with `App`
  generic, so nothing is assumed about it.
- Both `time.Now()` readings are parameters.
- A non-uniqueness failure of the database engine is the parameter
  `fault: Option<string>`.
- A scan's outcome is a `Result` parameter.
- A `panic` is returned as a failure value next to the unchanged state.

Two facts about the code worth knowing:

- The Page uniqueness index includes TemplateName: it is (StoreId,
  TemplateName, Name).
- `updateHostApp` calls `CreateApp` once for every matching (host, store)
  pair, so two hostnames of one store get separately created applications.

Every entity also has its Id as a primary key: `PK SERIAL` on Collection,
CustomField and Product, and xorm's naming rule for the int64 `Id` of Page and
Theme. An Id of zero is left to the engine to assign; a non-zero Id is inserted
as given and collides with a row that already has it.

## Model

| member | source | states |
|---|---|---|
| Text.Contains | src/myApp/services.go:229 | the marker test is true exactly when the marker occurs at some position of the error text |
| Records.Translate | src/myApp/services.go:227-233 | an error becomes an already-exists error exactly when its text contains the uniqueness marker; it then carries the original failure, the message and code 4001, and is otherwise returned unchanged |
| Records.UniqueViolationIsRecognised | src/myApp/services.go:229-231 | every uniqueness violation the store reports is translated into an already-exists error |
| Records.Create | src/myApp/services.go:223-237 | the record is stamped with both clock readings; the create succeeds exactly when the engine does not fail and no key is taken; on success the stamped row is appended and on failure the table is untouched; a collision becomes already-exists with code 4001; other errors pass through unchanged unless their text has the marker |
| Records.CreatePreservesUnique | src/myApp/services.go:226-233 | a create never leaves two rows of a table sharing a uniqueness key |
| Records.Filter | src/myApp/page.go:67 | the scan returns only table rows that satisfy the filter, and every satisfying row as many times as the table holds it |
| Catalog.CreateCollection | src/myApp/services.go:223-237 | Collection.create keeps the create contract with "The collection was already existing."; CreatedAt and UpdatedAt are overwritten and every other field kept; success depends only on the caller's key columns, a non-zero Id included |
| Catalog.CollectionNameTaken | src/myApp/services.go:52-54 | a collection that reuses only an existing collection's StoreId and DisplayName is rejected as already-existing |
| Catalog.CollectionIdTaken | src/myApp/services.go:51 | a collection reusing the non-zero Id of an existing collection is rejected as already-existing, even in another store, and the table is unchanged |
| Catalog.CreateCustomField | src/myApp/services.go:239-253 | CustomField.create keeps the create contract with "The custom Field was already existing." and the (StoreId, TypeId, ParentId, Key) index and the Id primary key |
| Catalog.CreateProduct | src/myApp/services.go:255-269 | Product.create keeps the create contract with "The product was already existing." its three indexes and the Id primary key |
| Catalog.SkuNeedsSkuEx | src/myApp/services.go:66-70 | the Sku index spans Sku and SkuEx together, so a shared Sku alone is no collision when the Ids do not clash |
| Pages.CreatePage | src/myApp/page.go:40-54 | Page.create stamps both timestamps, keeps every other field, succeeds exactly when the engine does not fail and the Id and the (StoreId, TemplateName, Name) key are free, and reports a collision as "page name was already existing." with code 4001 |
| Pages.SameNameOtherTemplateCoexist | src/myApp/page.go:16-18 | two pages of one store that differ in TemplateName (and do not share a non-zero Id) do not collide, and both are stored |
| Pages.DuplicatePageIsAlreadyExists | src/myApp/page.go:44-48 | a page whose StoreId, TemplateName and Name are taken gets the already-exists error with code 4001, and the table is unchanged |
| Pages.GetPages | src/myApp/page.go:65-74 | every page returned has the requested StoreId and comes from the table; every such row is returned with its multiplicity; a failed scan panics |
| Pages.FindFrom | src/myApp/page.go:30-35 | the loop finds a page exactly when one at or after the current position has the name, and the page it finds is the first one with that name |
| Pages.FindPage | src/myApp/page.go:28-35 | the lookup returns Some exactly when some page has the requested name, and then returns the first such page |
| Pages.DisplayPage | src/myApp/page.go:26-38 | a render is produced exactly when a page matches; it has status 200, the matched page's TemplateName and that first matching page as data; otherwise not-found |
| Pages.DisplayPageAsWritten | src/myApp/page.go:28-37 | as written, the resolver dereferences nil exactly when no page has the name; otherwise it renders the first matching page with status 200 through its own template |
| Pages.MissingPageDereferencesNil | src/myApp/page.go:28-37 | for pages "home" and "about", a request for "contact" dereferences nil as written and is not-found once corrected |
| Themes.CreateTheme | src/myApp/theme.go:31-46 | Theme.create stamps both timestamps, succeeds exactly when the engine does not fail and the Id and the (StoreId, Name) key are free, and reports a collision as "theme name was already existing." with code 4001 |
| Themes.SecondDefaultThemeAccepted | src/myApp/theme.go:13-15 | IsDefault is not part of any key, so a store can end up with two default themes |
| Themes.SameNameThemeIsAlreadyExists | src/myApp/theme.go:37-41 | a second theme with the same StoreId and Name is rejected as already-existing, whatever its IsDefault |
| Themes.GetThemes | src/myApp/theme.go:48-57 | every theme returned has the requested StoreId and comes from the table; every such row is returned with its multiplicity; a failed scan panics |
| Themes.Validate | src/myApp/theme.go:21-29 | the validator records no error for any theme |
| HostRegistry.ScanStoresKeys | src/myApp/services.go:197-202 | the inner loop adds the host row's name as a key exactly when some loaded store has the row's StoreId |
| HostRegistry.ScanStoresOther | src/myApp/services.go:197-202 | the inner loop for one host row leaves every other hostname's entry untouched |
| HostRegistry.ScanStoresNoMatch | src/myApp/services.go:197-202 | a host row with no matching store changes nothing |
| HostRegistry.ScanStoresLast | src/myApp/services.go:197-201 | within one host row, the entry comes from the last matching store |
| HostRegistry.BuildKeys | src/myApp/services.go:194-203 | after a build, a hostname is a key exactly when some host row names it and points to a loaded store; nothing from an earlier map survives |
| HostRegistry.BuildLastWriteWins | src/myApp/services.go:196-200 | the value for a hostname comes from the last matching (host, store) pair in nested scan order |
| HostRegistry.BuildHostApp | src/myApp/services.go:194-203 | the nested loops into a fresh map compute the reference join, so the keys are exactly the routed hostnames |
| HostRegistry.UpdateHostApp | src/myApp/services.go:179-204 | a failed host or store scan panics with that failure (the host scan's first) and leaves the registry unchanged; otherwise the registry is replaced wholesale by the join of the scanned rows |
| HostRegistry.GetHostApp | src/myApp/services.go:172-177 | a built registry is returned without scanning; an unbuilt one is built, panicking exactly when a scan fails, and otherwise holds exactly the reference join of the scanned rows (each routed hostname mapped to the app of its last matching pair) |
| HostRegistry.GetHostAppLatches | src/myApp/services.go:172-177 | once built, later lookups return the same map and never panic, whatever the tables now hold |
| HostRegistry.RebuildIsStable | src/myApp/services.go:179-204 | rebuilding from unchanged rows installs the same mapping again |
| HostRegistry.EndToEnd | src/myApp/page.go:26-38 | after a build, "shop.example.com" resolves to store 1, whose resolver renders page "home" through "home.html" with that page as data |

## Findings

| source | as written | input that shows it | evidently intended | confidence | as-written member | corrected member |
|---|---|---|---|---|---|---|
| src/myApp/page.go:28-37 | `page` stays nil when no page name matches, and `page.TemplateName` is then dereferenced | a store with pages "home" and "about", page name "contact" | an explicit not-found outcome | not executed | Pages.DisplayPageAsWritten | Pages.DisplayPage |

## Left out

- `src/myApp/upload_server.go`: multipart parsing, file writes and CORS headers are I/O only.
- `getPage` (page.go:56-63) reads a template file from disk and panics on error. This is I/O.
- `getThemeByName` (theme.go:59-67) depends on how the ORM's `Find` treats a single struct rather than a slice. That ORM behaviour is not part of this model.
- `Host.create` and `getHostMappings` (services.go:206-221) pass an insert or scan straight through and panic on error.
- The stubs `GetCollections`, `GetTags` and `SetTags` (services.go:271-281) contain no logic.
- Variation, OptionSet, OptionSetOption, Option, OptionValue, Image and the link tables are field-only records with no create or lookup here.
- Catalog.CreateProduct and Catalog.CreateCollection keep only the key columns and a few plain columns. No logic reads the other columns.
- The SQL engine is replaced by a table with key-uniqueness and filter semantics. These are not modelled:
  - the value the engine assigns to a zero Id, and whether it could clash with an Id a caller later supplies;
  - NOT NULL checks (Go zero values are never null);
  - the exact SQLite message after the marker;
  - which failure the engine reports first when both could apply.
- Every failure text is classified by its content, as the source does. An engine failure whose text happens to contain the marker is also reported as already-exists.
- `time.Now().UTC()` is called twice. The two readings are independent parameters, and nothing is claimed about their equality or order.
- `Store` and `CreateApp` are not part of this model. They are represented by a store's Id and page sequence and by the uninterpreted `createApp`.
- These `CreateApp` behaviours are not modelled:
  - a panic inside it, which would leave a partially filled map installed;
  - the identity of the application instances it creates.
- `displayPage` takes the store's page sequence. A nil `pages` pointer on the store is not modelled.
- `render.Render` is a returned record (status, template, data). The HTML it produces is not modelled.
- Pages.GetPages: states the returned rows and their multiplicities, not their order, because the scan has no ORDER BY.
- Themes.GetThemes: states the returned rows and their multiplicities, not their order, for the same reason.
- `Theme.Validate`'s request argument is dropped. The validator's body is entirely commented out.
- Concurrent access to the global registry is not modelled. The source has no locking, and the model is a single-threaded state value.
- `log.Printf` calls are not modelled.
- Go integer widths (`int`, `int64`) do not matter, because no arithmetic is done on the identifiers.
