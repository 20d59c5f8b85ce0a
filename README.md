# Inventory app core, modelled in Dafny

This project models the core of a small mobile inventory app. The app keeps
inventories, and items that belong to an inventory, in a local SQLite
database. Every piece below is modelled and proved over its own inputs.

- **ID generator.** An id is a base-36 timestamp, a `-`, and up to six
  base-36 random digits. There is also a format check.
- **Validation schemas.** Trimmed, non-blank names; non-negative quantity
  and price. The create shapes leave out server keys, and the update shapes
  make every key optional.
- **Repositories.** The two tables are sequences of rows kept in storage
  order, with unique ids and a foreign key from items to inventories.
  - Create assigns the id and both timestamps.
  - Update builds its `SET` list column by column. A payload that supplies
    nothing is a plain fetch.
  - Delete reports whether a row went away. Deleting an inventory cascades
    to its items.
  - Reads map rows to entities, turning falsy column values into absent
    ones.
- **Migration runner.** Pending migrations are applied in list order, each
  all-or-nothing. Rollback reverts from the highest version down to the
  target and stops at the first migration without a `down` list.
- **Database-backed store.** Lists, a selection and loading flags, kept in
  step with the repositories. A failed call leaves the lists untouched.
- **Plain in-memory store.** Add, remove and merge-update, id minting, and
  the selection getters.

Outside effects become parameters:
- The clock is a `nat` of milliseconds.
- `Math.random()` is its sequence of base-36 fraction digits.
- Each database call has a failure flag.
- Migration statements fail through an oracle `faults: Step -> bool`.

Each effectful operation is a `method` over a `Database` object or a store
object. Its contract states the whole new state, in terms of functions whose
properties are proved as lemmas.

Files:
- `wrappers.dfy` holds `Option`, `Result` and `Outcome`. `time.dfy` holds timestamps.
- `text.dfy` holds JavaScript `trim`, prefix and substring tests, and string order.
- `radix.dfy` holds `Number.prototype.toString(radix)` on naturals, with its inverse.
- `sorting.dfy` holds filter and a stable sort.
- `id_generator.dfy` and `schemas.dfy` model the ID generator and the schemas.
- `database_types.dfy` and `connection.dfy` hold the rows and the database state.
- `inventory_repository.dfy`, `item_repository.dfy` and `migrations.dfy` model the repositories and the migration runner.
- `entity_lists.dfy` holds the list operations both stores use.
- `database_store.dfy` and `store.dfy` model the two stores.

## Model

| member | source | states |
|---|---|---|
| Text.Trim | lib/schemas.ts:6 | the result is a contiguous part of the input with only whitespace cut from each end; it has no leading or trailing whitespace and is empty exactly when the input is all whitespace |
| Text.TrimIdempotent | lib/schemas.ts:6-7 | trimming twice is trimming once |
| Radix.FromToRadix | lib/utils/idGenerator.ts:6 | reading back a base-36 rendering of `Date.now()` gives the number |
| Radix.ToRadixInjective | lib/utils/idGenerator.ts:6 | different numbers have different base-36 renderings |
| IdGenerator.IsValidIdRejects | lib/utils/idGenerator.ts:14-16 | the empty string and any string without `-` are not valid ids |
| IdGenerator.GeneratedIdIsValid | lib/utils/idGenerator.ts:5-9 | every generated id passes `isValidId` |
| IdGenerator.TimestampRoundTrip | lib/utils/idGenerator.ts:6-8 | the text before the first `-` is base-36 digits and decodes to the timestamp |
| IdGenerator.RandomSuffixShape | lib/utils/idGenerator.ts:7 | the suffix is the first min(6, n) random digits, so at most six characters of `[a-z0-9]` |
| IdGenerator.IdAlphabet | lib/utils/idGenerator.ts:6-8 | an id is a non-empty run of base-36 digits, a `-`, then base-36 digits only |
| IdGenerator.DistinctTimestampsDistinctIds | lib/utils/idGenerator.ts:5-9 | ids generated at different milliseconds differ, whatever the random draws |
| IdGenerator.ZeroDrawGivesEmptySuffix | lib/utils/idGenerator.ts:7 | a random draw of 0 gives an id ending in `-` with an empty suffix |
| Schemas.ValidateInventory | lib/schemas.ts:4-10 | accepted iff the id is non-empty, the name is non-blank after trimming and both dates are present; the output carries the id, the dates and the trimmed strings; a rejection carries at least one issue |
| Schemas.ValidateCreateInventory | lib/schemas.ts:29-33 | accepted iff the name is non-blank after trimming; the output is the trimmed name and description |
| Schemas.ValidateUpdateInventory | lib/schemas.ts:41 | accepted iff the name is absent or non-blank; every key stays optional and is trimmed |
| Schemas.ValidateItem | lib/schemas.ts:13-26 | accepted iff the id is non-empty, inventoryId and name are non-blank after trimming, the quantity is present and non-negative, a present price is non-negative and both dates are present; on success inventoryId, name and every present optional string are the trimmed input, and quantity, price and the dates are carried over |
| Schemas.ValidateCreateItem | lib/schemas.ts:35-39 | the item rules without id, entry date and updated date; the optional fields may be missing |
| Schemas.ValidateUpdateItem | lib/schemas.ts:42 | the item rules applied only to the keys that are present |
| Schemas.CreateOmitsServerKeys | lib/schemas.ts:29-39 | the create validators ignore whatever id and timestamps the input carries |
| Schemas.FullSchemaExtendsCreate | lib/schemas.ts:29-33 | the full inventory schema accepts exactly the create-valid inputs that also carry id and dates |
| Schemas.UpdateAcceptsEmpty | lib/schemas.ts:41-42 | both update schemas accept the empty payload |
| Schemas.UpdateKeepsCreateRules | lib/schemas.ts:41-42 | when the keys are present, update and create validation agree |
| Schemas.TrimOptIdempotent | lib/schemas.ts:6-7 | trimming an optional string twice is trimming it once |
| Schemas.CreateInventoryRevalidates | lib/schemas.ts:29-33 | a validated create payload validates again to itself |
| Schemas.CreateItemRevalidates | lib/schemas.ts:35-39 | a validated item create payload validates again to itself |
| Connection.FilterKeepsUniqueInventories | lib/database/inventoryRepository.ts:107-114 | removing rows keeps inventory ids unique |
| Connection.FilterKeepsUniqueItems | lib/database/itemRepository.ts:164-167 | removing rows keeps item ids unique |
| InventoryRepository.NameOrder | lib/database/inventoryRepository.ts:58 | ordering by name is a total preorder |
| InventoryRepository.FindRow | lib/database/inventoryRepository.ts:45-48 | a row is found iff the id is in the table, and the row found has that id |
| InventoryRepository.CountWithId | lib/database/inventoryRepository.ts:120-125 | the count is positive iff the id is in the table |
| InventoryRepository.CreateInventory | lib/database/inventoryRepository.ts:22-39 | succeeds iff the engine does not fail and the generated id is fresh; returns the given name and description with createdAt == updatedAt == now and appends that row; on failure the table is unchanged |
| InventoryRepository.AppendKeepsConsistent | lib/database/inventoryRepository.ts:26-30 | inserting a fresh id keeps ids unique and references intact |
| InventoryRepository.GetInventoryById | lib/database/inventoryRepository.ts:44-51 | Some iff the id is in the table; the result has that id and is a mapped row |
| InventoryRepository.GetAllInventories | lib/database/inventoryRepository.ts:56-62 | every mapped row, each as often as stored, sorted by name |
| InventoryRepository.AssignmentsArePatch | lib/database/inventoryRepository.ts:71-90 | the pushed `SET` list, applied to a row, is the patch of the supplied fields plus updated_at |
| InventoryRepository.UpdateWhereIsPatch | lib/database/inventoryRepository.ts:71-96 | the `UPDATE ... WHERE id = ?` statement is the patch |
| InventoryRepository.SameIdsKeepConsistent | lib/database/inventoryRepository.ts:93-96 | an update that keeps every id keeps the table consistent |
| InventoryRepository.UpdateInventory | lib/database/inventoryRepository.ts:67-102 | an empty payload is a plain fetch with no write; otherwise the table becomes the patch, and the result is null when no row has the id and the re-read row otherwise |
| InventoryRepository.UpdateFrame | lib/database/inventoryRepository.ts:74-101 | a patched row keeps id and createdAt, takes updatedAt = now and the supplied fields (falsy description stored as null), and leaves the rest |
| InventoryRepository.DeleteCascadeConsistent | lib/database/migrations.ts:31 | after the cascade the id is gone, no item references it, and the tables stay consistent |
| InventoryRepository.DeleteInventory | lib/database/inventoryRepository.ts:107-114 | returns true iff the id was present; removes that row and, by the cascade, its items |
| InventoryRepository.InventoryExists | lib/database/inventoryRepository.ts:119-126 | true iff the table holds the id |
| InventoryRepository.GetInventoryCount | lib/database/inventoryRepository.ts:131-137 | the number of distinct ids in the table |
| InventoryRepository.DistinctIdsCount | lib/database/inventoryRepository.ts:131-137 | with unique ids, the row count is the number of ids |
| InventoryRepository.SearchInventories | lib/database/inventoryRepository.ts:142-151 | exactly the inventories whose name or description contains the query, each as often as stored, sorted by name |
| InventoryRepository.CreatedInventoryReadBack | lib/database/inventoryRepository.ts:9-39 | a created row is found again; an empty description reads back as absent, any other round-trips |
| InventoryRepository.FindLast | lib/database/inventoryRepository.ts:45-50 | an appended row with a fresh id is the one found |
| ItemRepository.NameOrder | lib/database/itemRepository.ts:87 | ordering by name is a total preorder |
| ItemRepository.FindRow | lib/database/itemRepository.ts:74-77 | a row is found iff the id is in the table |
| ItemRepository.CountWithId | lib/database/itemRepository.ts:165-166 | the count is positive iff the id is in the table |
| ItemRepository.AppendKeepsConsistent | lib/database/itemRepository.ts:33-52 | inserting a fresh id whose inventory exists keeps the tables consistent |
| ItemRepository.CreateItem | lib/database/itemRepository.ts:29-68 | succeeds iff the engine does not fail, the id is fresh and the inventory exists; returns the input with entryDate == updatedAt == now and appends that row; on failure the table is unchanged |
| ItemRepository.GetItemById | lib/database/itemRepository.ts:73-80 | Some iff the id is in the table; the result has that id |
| ItemRepository.GetItemsByInventoryId | lib/database/itemRepository.ts:85-92 | exactly the items of that inventory, each as often as stored, sorted by name |
| ItemRepository.PushAssigns | lib/database/itemRepository.ts:101-139 | one conditional push adds its assignment exactly when the field is supplied |
| ItemRepository.PushPatches | lib/database/itemRepository.ts:101-139 | one conditional push patches exactly its column |
| ItemRepository.PushAllPatches | lib/database/itemRepository.ts:101-139 | the whole run of pushes patches every supplied column |
| ItemRepository.PushAllUnrolled | lib/database/itemRepository.ts:101-139 | the column loop is the eight pushes in the source's order |
| ItemRepository.PushAllEmpty | lib/database/itemRepository.ts:141-143 | the pushes add nothing iff no column is supplied |
| ItemRepository.PatchAllIsPatchRow | lib/database/itemRepository.ts:97-147 | the column patches plus updated_at give the row patch |
| ItemRepository.ClauseEmpty | lib/database/itemRepository.ts:141-143 | the `SET` list is empty iff the payload supplies none of the eight columns, inventoryId being ignored |
| ItemRepository.UpdateWhereIsPatch | lib/database/itemRepository.ts:145-151 | the `UPDATE` statement is the patch |
| ItemRepository.SameKeysKeepConsistent | lib/database/itemRepository.ts:145-151 | an update that keeps every id and inventory keeps the tables consistent |
| ItemRepository.UpdateItem | lib/database/itemRepository.ts:97-159 | an empty payload is a plain fetch; otherwise the table becomes the patch and the result is null when no row matched |
| ItemRepository.UpdateFrame | lib/database/itemRepository.ts:97-158 | a patched row keeps id, inventory and entry date, takes updatedAt = now, and a zero price is stored as null |
| ItemRepository.DeleteKeepsConsistent | lib/database/itemRepository.ts:164-167 | removing an item keeps the tables consistent and removes exactly its id |
| ItemRepository.DeleteItem | lib/database/itemRepository.ts:164-167 | returns true iff the id was present, and removes that row |
| ItemRepository.GetItemCountByInventoryId | lib/database/itemRepository.ts:172-179 | the number of rows of that inventory, so zero for an inventory that does not exist |
| ItemRepository.CountMatchesListing | lib/database/itemRepository.ts:172-179 | the count equals the length of the listing |
| ItemRepository.FilterMapLength | lib/database/itemRepository.ts:172-179 | filtering mapped items and filtering rows select equally many |
| ItemRepository.SearchItemsInInventory | lib/database/itemRepository.ts:184-196 | exactly the inventory's items whose name or description contains the query, each as often as stored, sorted by name |
| ItemRepository.FindBarcodeRow | lib/database/itemRepository.ts:202-205 | a row is found iff some row carries the barcode, and the found row does |
| ItemRepository.FindItemByBarcode | lib/database/itemRepository.ts:201-208 | Some iff some item has the barcode; the result carries it |
| ItemRepository.CreatedItemReadBack | lib/database/itemRepository.ts:9-52 | a created row is found again; falsy strings and a zero price read back as absent |
| ItemRepository.FindLast | lib/database/itemRepository.ts:74-79 | an appended row with a fresh id is the one found |
| Migrations.MigrationsWellFormed | lib/database/migrations.ts:5-54 | versions are positive and strictly increasing, and every migration has a `down` list |
| Migrations.MaxVersion | lib/database/migrations.ts:61-64 | the largest recorded version, or 0 when there is none |
| Migrations.GetCurrentVersion | lib/database/migrations.ts:59-69 | the maximum recorded version, or 0 when the table is empty or the read fails |
| Migrations.Upsert | lib/database/migrations.ts:88-91 | recording a version adds exactly that version |
| Migrations.Delete | lib/database/migrations.ts:155-158 | removing a version record removes exactly that version |
| Migrations.ApplyMigration | lib/database/migrations.ts:74-99 | all or nothing: on success the `up` statements are committed and the version recorded; on any failure neither, and the error names the version |
| Migrations.Pending | lib/database/migrations.ts:106 | exactly the migrations newer than the current version, in list order |
| Migrations.FirstApplyFailure | lib/database/migrations.ts:115-117 | the index of the first migration that does not apply, or the length |
| Migrations.ApplyStep | lib/database/migrations.ts:115-117 | one more applied migration extends the log and records its version |
| Migrations.ApplyInOrder | lib/database/migrations.ts:115-117 | applies migrations in order up to the first failure, which is reported; those before it stay applied |
| Migrations.RunMigrations | lib/database/migrations.ts:104-120 | the pending migrations are applied in list order until the first failure, whose version is reported |
| Migrations.RecordAllRecords | lib/database/migrations.ts:104-120 | after applying, every earlier and every applied version is recorded |
| Migrations.RerunFindsNothing | lib/database/migrations.ts:106-111 | after a full run, nothing is pending, so running again does nothing |
| Migrations.RollbackPlan | lib/database/migrations.ts:133-135 | exactly the migrations with target < version <= current |
| Migrations.RollbackPlanDescending | lib/database/migrations.ts:135 | the plan is in descending version order |
| Migrations.RevertMigration | lib/database/migrations.ts:140-165 | a missing `down` fails before anything runs; otherwise the `down` statements and the record removal commit together or not at all |
| Migrations.RevertStep | lib/database/migrations.ts:146-160 | one more reverted migration extends the log and removes its version |
| Migrations.FirstRevertFailure | lib/database/migrations.ts:139-166 | the index of the first migration that cannot be reverted, or the length |
| Migrations.RevertInOrder | lib/database/migrations.ts:139-166 | reverts in order up to the first failure, which is reported; those before it stay reverted |
| Migrations.RollbackToVersion | lib/database/migrations.ts:125-169 | nothing happens when target >= current; otherwise the plan is reverted highest first, stopping at the first missing `down` or failing statement |
| Migrations.DeleteAllRemoves | lib/database/migrations.ts:155-158 | after reverting, exactly the reverted versions are gone |
| Migrations.RollbackReachesTarget | lib/database/migrations.ts:125-169 | when every recorded version above the target has a migration, a full rollback leaves the current version at most the target |
| EntityLists.Find | lib/databaseStore.ts:206-212 | `find` gives Some iff an element matches, and then the first match |
| EntityLists.FilterIsSubsequence | lib/databaseStore.ts:214-216 | a filter keeps the order of what it keeps |
| EntityLists.FilterStronger | lib/databaseStore.ts:131-147 | filtering by p and then by a stronger q is filtering by q |
| EntityLists.ItemsOf | lib/databaseStore.ts:214-216 | exactly the items of the inventory |
| EntityLists.WithoutItemsOf | lib/store.ts:46 | exactly the items of other inventories |
| EntityLists.WithoutInventory | lib/store.ts:45 | exactly the inventories with another id |
| EntityLists.WithoutItem | lib/store.ts:62-64 | exactly the items with another id |
| EntityLists.ItemCount | lib/databaseStore.ts:226-228 | zero iff no item belongs to the inventory |
| EntityLists.FindInventory | lib/databaseStore.ts:206-208 | Some iff an inventory has the id, and then the first inventory in list order with that id |
| EntityLists.FindItem | lib/databaseStore.ts:210-212 | Some iff an item has the id, and then the first item in list order with that id |
| EntityLists.SelectedInventory | lib/store.ts:105-108 | null iff nothing is selected or no inventory has the selected id; otherwise the selected inventory |
| EntityLists.SelectedItems | lib/store.ts:110-113 | exactly the items whose inventoryId is the selected id |
| EntityLists.FindAfterReplaceInventory | lib/databaseStore.ts:100-114 | after the replace, the id finds the new value if it was present, and other ids find what they found before |
| EntityLists.FindAfterReplaceItem | lib/databaseStore.ts:162-176 | the same for items |
| EntityLists.ScopedReplace | lib/databaseStore.ts:131-147 | after a scoped load, the inventory's listing is what was fetched, and every other inventory's listing is unchanged, order included |
| EntityLists.DropItemsOf | lib/store.ts:44-48 | dropping an inventory's items leaves it none and the others unchanged |
| EntityLists.RemovalsKeepOrder | lib/store.ts:44-64 | the removals keep the survivors in their order |
| DatabaseStore.DatabaseStore.InitializeDatabase | lib/databaseStore.ts:63-72 | succeeds iff the connection opens and every pending migration applies; the schema log and version table grow by the pending migrations up to the first failing one, as in `RunMigrations`, and stay unchanged when the open fails; only success sets isInitialized; the lists are untouched |
| DatabaseStore.DatabaseStore.LoadInventories | lib/databaseStore.ts:75-85 | on success the list is the repository listing, sorted by name; on failure it is unchanged; the loading flag ends false |
| DatabaseStore.DatabaseStore.CreateInventory | lib/databaseStore.ts:87-98 | on success returns the inventory with the generated id, the data and createdAt == updatedAt == now, appends it to the list and appends its row to the table; on failure neither the list nor the table changes |
| DatabaseStore.DatabaseStore.UpdateInventory | lib/databaseStore.ts:100-114 | when the repository returns the row, the element with the id is replaced and the length kept; a null or a failure changes nothing |
| DatabaseStore.DatabaseStore.DeleteInventory | lib/databaseStore.ts:116-128 | removes the inventory and all its items, clears the selection iff it was that id, and keeps other inventories' items |
| DatabaseStore.DatabaseStore.LoadItemsForInventory | lib/databaseStore.ts:131-147 | other inventories' items are kept; the inventory's items become the fetched ones; a failure changes nothing; the flag ends false |
| DatabaseStore.DatabaseStore.CreateItem | lib/databaseStore.ts:149-160 | on success returns the item with the generated id, the data and entryDate == updatedAt == now, appends it to the list and its row to the table; on failure nothing changes |
| DatabaseStore.DatabaseStore.UpdateItem | lib/databaseStore.ts:162-176 | when the repository returns the row, only the element with the id is replaced; a null or a failure changes nothing |
| DatabaseStore.DatabaseStore.DeleteItem | lib/databaseStore.ts:178-188 | removes exactly the items with the id; the rest keep their order |
| DatabaseStore.DatabaseStore.SetCurrentInventory | lib/databaseStore.ts:191-193 | sets the selection and nothing else |
| DatabaseStore.DatabaseStore.GetInventoryById | lib/databaseStore.ts:206-208 | the first inventory with the id, if any |
| DatabaseStore.DatabaseStore.GetItemById | lib/databaseStore.ts:210-212 | the first item with the id, if any |
| DatabaseStore.DatabaseStore.GetItemsForInventory | lib/databaseStore.ts:214-216 | exactly the items of the inventory, in list order |
| DatabaseStore.DatabaseStore.GetInventoryItemCount | lib/databaseStore.ts:226-228 | the length of the inventory's listing, zero iff it has no items |
| DatabaseStore.DatabaseStore.TotalsBoundViews | lib/databaseStore.ts:218-228 | `getInventoryItemCount` never exceeds `totalItems`; with no inventories `getInventoryById` finds none, and with no items every count is zero and every listing empty |
| AppStore.MergeInventoryLaws | lib/store.ts:50-56 | `updateInventory`'s merge: an empty patch touches only updatedAt; merging the same patch twice is merging it once |
| AppStore.MergeItemLaws | lib/store.ts:66-72 | `updateItem`'s merge: an empty patch touches only updatedAt; merging the same patch twice is merging it once |
| AppStore.StoreIdClock | lib/store.ts:75-102 | a minted id starts with its prefix, and the digits before `_` decode to the clock |
| AppStore.ClockField | lib/store.ts:75-102 | the text between the prefix and the first `_` after it is exactly the clock digits, whatever the random part |
| AppStore.NoUnderscoreInDigits | lib/store.ts:75-102 | decimal digits never contain `_` |
| AppStore.DistinctClocksDistinctStoreIds | lib/store.ts:75-102 | ids minted at different milliseconds differ |
| AppStore.AppStore.SetCurrentInventory | lib/store.ts:38 | sets the selection and nothing else |
| AppStore.AppStore.AddInventory | lib/store.ts:40-42 | appends the inventory at the end; the existing ones are unchanged |
| AppStore.AppStore.RemoveInventory | lib/store.ts:44-48 | removes the inventory and its items, keeps other listings and the order, and clears the selection iff it was that id |
| AppStore.AppStore.UpdateInventory | lib/store.ts:50-56 | merges into the elements with the id only, with updatedAt = now; the length is kept |
| AppStore.AppStore.AddItem | lib/store.ts:58-60 | appends the item at the end |
| AppStore.AppStore.RemoveItem | lib/store.ts:62-64 | removes exactly the items with the id; the rest keep their order |
| AppStore.AppStore.UpdateItem | lib/store.ts:66-72 | merges into the elements with the id only, with updatedAt = now |
| AppStore.AppStore.CreateInventory | lib/store.ts:75-86 | an `inv_` id, createdAt == updatedAt == now, appended |
| AppStore.AppStore.CreateItem | lib/store.ts:88-102 | an `item_` id, quantity 1, entryDate == updatedAt == now, appended |

## Left out

- The connection module: opening SQLite, `PRAGMA`s and closing are plumbing. Only the open's outcome is kept, as a failure flag of `InitializeDatabase`.
- Clock and randomness are parameters. Ids are not random-collision-free within one millisecond; that is probabilistic.
- `GenerateId`: the random suffix can be shorter than five characters. `Math.random().toString(36)` may have fewer digits, and is `"0"` for a draw of 0. The model follows the code.
- Timestamps are whole milliseconds. ISO-8601 text and `Date` parsing are not modelled.
- Prices are `real`. JavaScript floating point and number formatting are not modelled.
- Quantities are whole numbers (`int`). `z.number().min(0)` also accepts fractional quantities such as 2.5; those are not modelled.
- `InventoryPatch` and `ItemPatch` hold a required key as a plain `Option`, so they cannot express a present key with the value `undefined`, which `Partial<T>` and the spread allow and copy.
- SQL semantics:
  - `LIKE` case folding and `%`/`_` wildcards in the query: the model uses a case-sensitive substring test.
  - `ORDER BY` collation: the model compares code points. Ties keep storage order.
  - The model assumes `getFirstAsync` returns the first row in storage order when several items share a barcode.
- `BEGIN`, `COMMIT` and `ROLLBACK` never fail in the model. The `applied_at` column is not stored.
- Migration statements are opaque strings. Table existence is not modelled, so the model misses one fault. Version 1's `down` drops `schema_versions`, and then lib/database/migrations.ts:156 deletes from it.
- `GetCurrentVersion` returns 0 when the version read fails. Migrations are then re-applied from the start; the statements say whether that works.
- `RunMigrations` applies pending migrations in list order, as the code does; it does not sort. The shipped list is increasing, so this matches sorted order (`MigrationsWellFormed`).
- Zod itself is not modelled: error objects, issue order and messages. Only which rules fail, and that a failure has at least one issue.
- `UpdateItem` (both layers): `inventoryId` in the payload is ignored, as in the code.
- `DatabaseStore.DatabaseStore.UpdateInventory` and `DatabaseStore.DatabaseStore.UpdateItem` take the repository payload types. The source accepts `Partial<Inventory>` and `Partial<Item>`, but only those keys reach SQL.
- Loading flags: the model shows only their final value. The intermediate `true` is not observable between steps.
- Async/await is modelled as sequential calls. Console logging and rethrown errors become returned results.
- UI components, screens, forms and test glue are outside the core.
- `DatabaseStore.DatabaseStore.GetCurrentInventory`, `DatabaseStore.DatabaseStore.GetCurrentInventoryItems`, `AppStore.AppStore.GetCurrentInventory` and `AppStore.AppStore.GetCurrentInventoryItems` delegate to `EntityLists.SelectedInventory` and `EntityLists.SelectedItems`. The contracts sit there.
