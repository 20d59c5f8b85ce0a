/** The database-backed store (lib/databaseStore.ts): lists of inventories and
    items cached from the database, the selected inventory and the loading
    flags. Every action calls a repository and then updates the lists; a
    failing call leaves them untouched and is reported to the caller. Each
    repository call's engine failure is a parameter. */
module DatabaseStore {
  import opened Wrappers
  import opened Time
  import opened Schemas
  import opened Sorting
  import opened Connection
  import opened EntityLists
  import Radix
  import IdGenerator
  import InventoryRepository
  import ItemRepository
  import Migrations

  /** Why `initializeDatabase` throws: the connection does not open, or a
      migration fails. */
  datatype InitError = ConnectionFailed | MigrationFailed(error: Migrations.MigrationError)

  /** `useDatabaseStore`: the store's state over the database it caches. */
  class DatabaseStore {
    const db: Database
    var inventories: seq<Inventory>
    var items: seq<Item>
    var currentInventoryId: Option<string>
    var isLoadingInventories: bool
    var isLoadingItems: bool
    var isInitialized: bool

    ghost predicate Valid()
      reads this, db
    {
      db.Valid()
    }

    /** The initial state: nothing loaded, nothing selected, not initialized. */
    constructor (db: Database)
      requires db.Valid()
      ensures Valid() && this.db == db
      ensures inventories == [] && items == [] && currentInventoryId == None
      ensures !isLoadingInventories && !isLoadingItems && !isInitialized
    {
      this.db := db;
      inventories, items, currentInventoryId := [], [], None;
      isLoadingInventories, isLoadingItems, isInitialized := false, false, false;
    }

    /** `initializeDatabase()`: opens the connection, runs the pending
        migrations, and only then marks the store initialized. */
    method InitializeDatabase(openFails: bool, faults: Migrations.Step -> bool) returns (r: Outcome<InitError>)
      requires Valid()
      modifies this, db
      ensures Valid()
      ensures var pending := Migrations.Pending(Migrations.MIGRATIONS, old(Migrations.GetCurrentVersion(db, faults)));
        r.Pass? <==> !openFails && Migrations.FirstApplyFailure(pending, faults) == |pending|
      ensures openFails ==>
        && r == Fail(ConnectionFailed)
        && db.schemaLog == old(db.schemaLog) && db.schemaVersions == old(db.schemaVersions)
      ensures var pending := Migrations.Pending(Migrations.MIGRATIONS, old(Migrations.GetCurrentVersion(db, faults)));
        var j := Migrations.FirstApplyFailure(pending, faults);
        !openFails ==>
          && (r.Fail? ==> j < |pending| && r == Fail(MigrationFailed(Migrations.ApplyFailed(pending[j].version))))
          && db.schemaLog == old(db.schemaLog) + Migrations.UpLog(pending[..j])
          && db.schemaVersions == Migrations.RecordAll(old(db.schemaVersions), pending[..j])
      ensures isInitialized == (old(isInitialized) || r.Pass?)
      ensures inventories == old(inventories) && items == old(items) && currentInventoryId == old(currentInventoryId)
      ensures isLoadingInventories == old(isLoadingInventories) && isLoadingItems == old(isLoadingItems)
      ensures db.inventories == old(db.inventories) && db.items == old(db.items)
    {
      if openFails {
        return Fail(ConnectionFailed);
      }
      var outcome := Migrations.RunMigrations(db, Migrations.MIGRATIONS, faults);
      if outcome.Fail? {
        return Fail(MigrationFailed(outcome.error));
      }
      isInitialized := true;
      r := Pass;
    }

    /** `loadInventories()`: on success the list becomes every inventory in
        name order; on failure it is kept. The loading flag ends false
        either way. */
    method LoadInventories(fails: bool) returns (r: Outcome<DbError>)
      requires Valid()
      modifies this
      ensures Valid()
      ensures r.Pass? <==> !fails
      ensures r.Pass? ==>
        && inventories == InventoryRepository.GetAllInventories(db, fails).value
        && multiset(inventories) == multiset(InventoryRepository.MapInventories(db.inventories))
        && SortedBy(inventories, InventoryRepository.NameLe)
      ensures r.Fail? ==> inventories == old(inventories)
      ensures !isLoadingInventories
      ensures items == old(items) && currentInventoryId == old(currentInventoryId)
      ensures isLoadingItems == old(isLoadingItems) && isInitialized == old(isInitialized)
    {
      isLoadingInventories := true;
      var fetched := InventoryRepository.GetAllInventories(db, fails);
      if fetched.Failure? {
        isLoadingInventories := false;
        return Fail(fetched.error);
      }
      inventories, isLoadingInventories := fetched.value, false;
      r := Pass;
    }

    /** `createInventory(data)`: on success the created inventory is appended
        and returned; on failure nothing changes. */
    method CreateInventory(data: CreateInventory, clock: nat, random: seq<nat>, now: Timestamp, fails: bool)
      returns (r: Result<Inventory, DbError>)
      requires Valid() && Radix.IsDigits(random, 36)
      modifies this, db
      ensures Valid()
      ensures var id := IdGenerator.GenerateId(clock, random);
        r.Success? ==>
          && r.value == Inventory(id, data.name, data.description, now, now)
          && inventories == old(inventories) + [r.value]
          && db.inventories == old(db.inventories) + [InventoryRepository.NewInventoryRow(id, data, now)]
      ensures r.Failure? ==> inventories == old(inventories) && db.inventories == old(db.inventories)
      ensures r.Success? <==> !fails && IdGenerator.GenerateId(clock, random) !in InventoryIds(old(db.inventories))
      ensures items == old(items) && currentInventoryId == old(currentInventoryId)
      ensures isLoadingInventories == old(isLoadingInventories) && isLoadingItems == old(isLoadingItems)
      ensures isInitialized == old(isInitialized)
      ensures db.items == old(db.items)
    {
      r := InventoryRepository.CreateInventory(db, data, clock, random, now, fails);
      if r.Success? {
        inventories := inventories + [r.value];
      }
    }

    /** `updateInventory(id, data)`: when the repository returns the updated
        inventory, it replaces the element with that id; when it returns null
        or fails, the list is kept. `fetched` is what the repository returned. */
    method UpdateInventory(id: string, data: UpdateInventory, now: Timestamp, writeFails: bool, readFails: bool)
      returns (r: Outcome<DbError>, ghost fetched: Option<Inventory>)
      requires Valid()
      modifies this, db
      ensures Valid()
      ensures r.Pass? ==> (fetched.Some? <==> id in InventoryIds(old(db.inventories)))
      ensures r.Fail? ==> fetched.None?
      ensures fetched.Some? ==>
        && fetched.value.id == id
        && fetched.value in InventoryRepository.MapInventories(db.inventories)
        && inventories == ReplaceInventory(old(inventories), id, fetched.value)
      ensures fetched.None? ==> inventories == old(inventories)
      ensures db.inventories ==
        if InventoryRepository.IsEmptyUpdate(data) || writeFails then old(db.inventories)
        else InventoryRepository.PatchRows(old(db.inventories), id, data, now)
      ensures items == old(items) && currentInventoryId == old(currentInventoryId)
      ensures isLoadingInventories == old(isLoadingInventories) && isLoadingItems == old(isLoadingItems)
      ensures isInitialized == old(isInitialized)
      ensures db.items == old(db.items)
    {
      var updated := InventoryRepository.UpdateInventory(db, id, data, now, writeFails, readFails);
      if !InventoryRepository.IsEmptyUpdate(data) && !writeFails {
        InventoryRepository.SameIdsKeepConsistent(old(db.inventories), db.inventories, db.items);
      }
      if updated.Failure? {
        return Fail(updated.error), None;
      }
      fetched := updated.value;
      if updated.value.Some? {
        inventories := ReplaceInventory(inventories, id, updated.value.value);
      }
      r := Pass;
    }

    /** `deleteInventory(id)`: the inventory and its items leave the lists,
        and the selection is cleared iff it was that inventory. */
    method DeleteInventory(id: string, fails: bool) returns (r: Outcome<DbError>)
      requires Valid()
      modifies this, db
      ensures Valid()
      ensures r.Pass? <==> !fails
      ensures r.Pass? ==>
        && inventories == WithoutInventory(old(inventories), id)
        && items == WithoutItemsOf(old(items), id)
        && currentInventoryId == (if old(currentInventoryId) == Some(id) then None else old(currentInventoryId))
        && ItemsOf(items, id) == []
        && (forall other :: other != id ==> ItemsOf(items, other) == ItemsOf(old(items), other))
        && db.inventories == InventoryRepository.RemoveInventoryRow(old(db.inventories), id)
        && db.items == InventoryRepository.CascadeItems(old(db.items), id)
      ensures r.Fail? ==>
        && inventories == old(inventories) && items == old(items)
        && currentInventoryId == old(currentInventoryId)
        && db.inventories == old(db.inventories) && db.items == old(db.items)
      ensures isLoadingInventories == old(isLoadingInventories) && isLoadingItems == old(isLoadingItems)
      ensures isInitialized == old(isInitialized)
    {
      var removed := InventoryRepository.DeleteInventory(db, id, fails);
      if removed.Failure? {
        return Fail(removed.error);
      }
      DropItemsOf(items, id);
      inventories := WithoutInventory(inventories, id);
      items := WithoutItemsOf(items, id);
      if currentInventoryId == Some(id) {
        currentInventoryId := None;
      }
      r := Pass;
    }

    /** `loadItemsForInventory(inventoryId)`: on success that inventory's
        items become the fetched ones and every other inventory's items stay
        as they were; on failure the list is kept. The loading flag ends
        false either way. */
    method LoadItemsForInventory(inventoryId: string, fails: bool) returns (r: Outcome<DbError>)
      requires Valid()
      modifies this
      ensures Valid()
      ensures r.Pass? <==> !fails
      ensures r.Pass? ==>
        var fetched := ItemRepository.GetItemsByInventoryId(db, inventoryId, fails).value;
        && items == WithoutItemsOf(old(items), inventoryId) + fetched
        && ItemsOf(items, inventoryId) == fetched
        && (forall other :: other != inventoryId ==> ItemsOf(items, other) == ItemsOf(old(items), other))
      ensures r.Fail? ==> items == old(items)
      ensures !isLoadingItems
      ensures inventories == old(inventories) && currentInventoryId == old(currentInventoryId)
      ensures isLoadingInventories == old(isLoadingInventories) && isInitialized == old(isInitialized)
    {
      isLoadingItems := true;
      var fetched := ItemRepository.GetItemsByInventoryId(db, inventoryId, fails);
      if fetched.Failure? {
        isLoadingItems := false;
        return Fail(fetched.error);
      }
      forall i | 0 <= i < |fetched.value| ensures fetched.value[i].inventoryId == inventoryId {
        assert fetched.value[i] in fetched.value;
      }
      ScopedReplace(items, inventoryId, fetched.value);
      items, isLoadingItems := WithoutItemsOf(items, inventoryId) + fetched.value, false;
      r := Pass;
    }

    /** `createItem(data)`: on success the created item is appended and
        returned; on failure nothing changes. */
    method CreateItem(data: CreateItem, clock: nat, random: seq<nat>, now: Timestamp, fails: bool)
      returns (r: Result<Item, DbError>)
      requires Valid() && Radix.IsDigits(random, 36)
      modifies this, db
      ensures Valid()
      ensures var id := IdGenerator.GenerateId(clock, random);
        r.Success? ==>
          && r.value == ItemRepository.CreatedItem(id, data, now)
          && items == old(items) + [r.value]
          && db.items == old(db.items) + [ItemRepository.NewItemRow(id, data, now)]
      ensures r.Failure? ==> items == old(items) && db.items == old(db.items)
      ensures r.Success? <==>
        && !fails
        && IdGenerator.GenerateId(clock, random) !in ItemIds(old(db.items))
        && data.inventoryId in InventoryIds(old(db.inventories))
      ensures inventories == old(inventories) && currentInventoryId == old(currentInventoryId)
      ensures isLoadingInventories == old(isLoadingInventories) && isLoadingItems == old(isLoadingItems)
      ensures isInitialized == old(isInitialized)
      ensures db.inventories == old(db.inventories)
    {
      r := ItemRepository.CreateItem(db, data, clock, random, now, fails);
      if r.Success? {
        items := items + [r.value];
      }
    }

    /** `updateItem(id, data)`: when the repository returns the updated item,
        it replaces the element with that id; when it returns null or fails,
        the list is kept. `fetched` is what the repository returned. */
    method UpdateItem(id: string, data: UpdateItem, now: Timestamp, writeFails: bool, readFails: bool)
      returns (r: Outcome<DbError>, ghost fetched: Option<Item>)
      requires Valid()
      modifies this, db
      ensures Valid()
      ensures r.Pass? ==> (fetched.Some? <==> id in ItemIds(old(db.items)))
      ensures r.Fail? ==> fetched.None?
      ensures fetched.Some? ==>
        && fetched.value.id == id
        && fetched.value in ItemRepository.MapItems(db.items)
        && items == ReplaceItem(old(items), id, fetched.value)
      ensures fetched.None? ==> items == old(items)
      ensures db.items ==
        if ItemRepository.IsEmptyUpdate(data) || writeFails then old(db.items)
        else ItemRepository.PatchRows(old(db.items), id, data, now)
      ensures inventories == old(inventories) && currentInventoryId == old(currentInventoryId)
      ensures isLoadingInventories == old(isLoadingInventories) && isLoadingItems == old(isLoadingItems)
      ensures isInitialized == old(isInitialized)
      ensures db.inventories == old(db.inventories)
    {
      var updated := ItemRepository.UpdateItem(db, id, data, now, writeFails, readFails);
      if !ItemRepository.IsEmptyUpdate(data) && !writeFails {
        ItemRepository.SameKeysKeepConsistent(db.inventories, old(db.items), db.items);
      }
      if updated.Failure? {
        return Fail(updated.error), None;
      }
      fetched := updated.value;
      if updated.value.Some? {
        items := ReplaceItem(items, id, updated.value.value);
      }
      r := Pass;
    }

    /** `deleteItem(id)`: the items with that id leave the list, the rest
        keep their order. */
    method DeleteItem(id: string, fails: bool) returns (r: Outcome<DbError>)
      requires Valid()
      modifies this, db
      ensures Valid()
      ensures r.Pass? <==> !fails
      ensures r.Pass? ==>
        && items == WithoutItem(old(items), id)
        && Subsequence(items, old(items))
        && db.items == ItemRepository.RemoveItemRow(old(db.items), id)
      ensures r.Fail? ==> items == old(items) && db.items == old(db.items)
      ensures inventories == old(inventories) && currentInventoryId == old(currentInventoryId)
      ensures isLoadingInventories == old(isLoadingInventories) && isLoadingItems == old(isLoadingItems)
      ensures isInitialized == old(isInitialized)
      ensures db.inventories == old(db.inventories)
    {
      var removed := ItemRepository.DeleteItem(db, id, fails);
      if removed.Failure? {
        return Fail(removed.error);
      }
      RemovalsKeepOrder(inventories, items, id);
      items := WithoutItem(items, id);
      r := Pass;
    }

    /** `setCurrentInventory(inventoryId)` */
    method SetCurrentInventory(inventoryId: Option<string>)
      modifies this
      ensures currentInventoryId == inventoryId
      ensures inventories == old(inventories) && items == old(items)
      ensures isLoadingInventories == old(isLoadingInventories) && isLoadingItems == old(isLoadingItems)
      ensures isInitialized == old(isInitialized)
    {
      currentInventoryId := inventoryId;
    }

    /** `getCurrentInventory()` */
    function GetCurrentInventory(): Option<Inventory>
      reads this
    {
      SelectedInventory(inventories, currentInventoryId)
    }

    /** `getCurrentInventoryItems()` */
    function GetCurrentInventoryItems(): seq<Item>
      reads this
    {
      SelectedItems(items, currentInventoryId)
    }

    /** `getInventoryById(id)` */
    function GetInventoryById(id: string): (r: Option<Inventory>)
      reads this
      ensures r.Some? <==> exists i :: 0 <= i < |inventories| && inventories[i].id == id
      ensures r.Some? ==> r.value in inventories && r.value.id == id
      ensures r.Some? ==>
        exists i :: 0 <= i < |inventories| && inventories[i] == r.value && forall k :: 0 <= k < i ==> inventories[k].id != id
    {
      FindInventory(inventories, id)
    }

    /** `getItemById(id)` */
    function GetItemById(id: string): (r: Option<Item>)
      reads this
      ensures r.Some? <==> exists i :: 0 <= i < |items| && items[i].id == id
      ensures r.Some? ==> r.value in items && r.value.id == id
      ensures r.Some? ==> exists i :: 0 <= i < |items| && items[i] == r.value && forall k :: 0 <= k < i ==> items[k].id != id
    {
      FindItem(items, id)
    }

    /** `getItemsForInventory(inventoryId)` */
    function GetItemsForInventory(inventoryId: string): (r: seq<Item>)
      reads this
      ensures forall x :: x in r <==> x in items && x.inventoryId == inventoryId
      ensures Subsequence(r, items)
    {
      FilterIsSubsequence(items, (x: Item) => x.inventoryId == inventoryId);
      ItemsOf(items, inventoryId)
    }

    /** `totalInventories()` */
    function TotalInventories(): (n: nat)
      reads this
      ensures n == |inventories|
    {
      |inventories|
    }

    /** `totalItems()` */
    function TotalItems(): (n: nat)
      reads this
      ensures n == |items|
    {
      |items|
    }

    /** `getInventoryItemCount(inventoryId)`: the length of that inventory's
        listing; zero exactly when it has no item. */
    function GetInventoryItemCount(inventoryId: string): (n: nat)
      reads this
      ensures n == |GetItemsForInventory(inventoryId)|
      ensures n == 0 <==> forall i :: 0 <= i < |items| ==> items[i].inventoryId != inventoryId
    {
      ItemCount(items, inventoryId)
    }

    /** The totals bound the per-inventory views: no inventory counts more
        items than the store holds, and an empty store finds no inventory
        and counts no item. */
    lemma TotalsBoundViews(inventoryId: string)
      ensures GetInventoryItemCount(inventoryId) <= TotalItems()
      ensures TotalInventories() == 0 ==> GetInventoryById(inventoryId).None?
      ensures TotalItems() == 0 ==> GetInventoryItemCount(inventoryId) == 0 && GetItemsForInventory(inventoryId) == []
    {
    }
  }
}
