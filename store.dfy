/** The in-memory application store (lib/store.ts): lists of inventories and
    items with no database behind them, the selected inventory, and helpers
    that build new entities. The clock (`Date.now()`, `new Date()`) and the
    random draw (`Math.random()`, given by its base-36 fraction digits) are
    parameters. */
module AppStore {
  import opened Wrappers
  import opened Time
  import opened Schemas
  import opened EntityLists
  import opened Radix
  import Text

  /** `Partial<Inventory>` as spread by `{ ...inv, ...updates }`: `None` is
      an absent key; a present optional key may hold `undefined`, which
      overwrites. A required key (`id`, `name`, `createdAt`, `updatedAt`) is
      a plain `Option`, so an explicit `undefined` under it, which the
      `Partial` type and the spread let through, cannot be written here. */
  datatype InventoryPatch = InventoryPatch(
    id: Option<string>,
    name: Option<string>,
    description: Option<Option<string>>,
    createdAt: Option<Timestamp>,
    updatedAt: Option<Timestamp>)

  /** `Partial<Item>`, read the same way; the required keys (`id`,
      `inventoryId`, `name`, `quantity`, `entryDate`, `updatedAt`) likewise
      cannot hold an explicit `undefined`. */
  datatype ItemPatch = ItemPatch(
    id: Option<string>,
    inventoryId: Option<string>,
    name: Option<string>,
    description: Option<Option<string>>,
    quantity: Option<int>,
    price: Option<Option<real>>,
    category: Option<Option<string>>,
    location: Option<Option<string>>,
    barcode: Option<Option<string>>,
    expirationDate: Option<Option<Timestamp>>,
    entryDate: Option<Timestamp>,
    updatedAt: Option<Timestamp>)

  /** The value a key takes in a spread: the patch's when present. */
  function Pick<T>(patch: Option<T>, current: T): T {
    if patch.Some? then patch.value else current
  }

  /** `{ ...inv, ...updates, updatedAt: now }`: each key present in the patch
      takes the patch's value, every other key keeps its value, and
      `updatedAt` is `now` whatever the patch holds. */
  function MergeInventory(inv: Inventory, updates: InventoryPatch, now: Timestamp): (r: Inventory)
    ensures r.updatedAt == now
    ensures r.id == Pick(updates.id, inv.id) && r.name == Pick(updates.name, inv.name)
    ensures r.description == Pick(updates.description, inv.description)
    ensures r.createdAt == Pick(updates.createdAt, inv.createdAt)
  {
    Inventory(
      Pick(updates.id, inv.id),
      Pick(updates.name, inv.name),
      Pick(updates.description, inv.description),
      Pick(updates.createdAt, inv.createdAt),
      now)
  }

  /** `{ ...item, ...updates, updatedAt: now }`, read the same way. */
  function MergeItem(item: Item, updates: ItemPatch, now: Timestamp): (r: Item)
    ensures r.updatedAt == now
    ensures r.id == Pick(updates.id, item.id) && r.inventoryId == Pick(updates.inventoryId, item.inventoryId)
    ensures r.name == Pick(updates.name, item.name) && r.description == Pick(updates.description, item.description)
    ensures r.quantity == Pick(updates.quantity, item.quantity) && r.price == Pick(updates.price, item.price)
    ensures r.category == Pick(updates.category, item.category) && r.location == Pick(updates.location, item.location)
    ensures r.barcode == Pick(updates.barcode, item.barcode)
    ensures r.expirationDate == Pick(updates.expirationDate, item.expirationDate)
    ensures r.entryDate == Pick(updates.entryDate, item.entryDate)
  {
    Item(
      Pick(updates.id, item.id),
      Pick(updates.inventoryId, item.inventoryId),
      Pick(updates.name, item.name),
      Pick(updates.description, item.description),
      Pick(updates.quantity, item.quantity),
      Pick(updates.price, item.price),
      Pick(updates.category, item.category),
      Pick(updates.location, item.location),
      Pick(updates.barcode, item.barcode),
      Pick(updates.expirationDate, item.expirationDate),
      Pick(updates.entryDate, item.entryDate),
      now)
  }

  /** A patch with no key leaves an inventory alone except for `updatedAt`,
      and merging the same patch twice is merging it once. */
  lemma MergeInventoryLaws(inv: Inventory, updates: InventoryPatch, now: Timestamp)
    ensures MergeInventory(inv, InventoryPatch(None, None, None, None, None), now) == inv.(updatedAt := now)
    ensures MergeInventory(MergeInventory(inv, updates, now), updates, now) == MergeInventory(inv, updates, now)
  {
  }

  /** The same two laws for items. */
  lemma MergeItemLaws(item: Item, updates: ItemPatch, now: Timestamp)
    ensures MergeItem(item, ItemPatch(None, None, None, None, None, None, None, None, None, None, None, None), now)
            == item.(updatedAt := now)
    ensures MergeItem(MergeItem(item, updates, now), updates, now) == MergeItem(item, updates, now)
  {
  }

  /** `Math.random().toString(36).substr(2, 9)`: up to nine fraction digits. */
  function RandomPart(random: seq<nat>): string
    requires IsDigits(random, 36)
  {
    Text.Substr(FractionText(random), 2, 9)
  }

  /** `` `${prefix}${Date.now()}_${Math.random().toString(36).substr(2, 9)}` `` */
  function StoreId(prefix: string, clock: nat, random: seq<nat>): string
    requires IsDigits(random, 36)
  {
    prefix + ToRadix(clock, 10) + "_" + RandomPart(random)
  }

  /** A store id starts with its prefix, and the decimal text between the
      prefix and the next `_` reads back as the clock. */
  lemma StoreIdClock(prefix: string, clock: nat, random: seq<nat>)
    requires IsDigits(random, 36)
    ensures var id := StoreId(prefix, clock, random);
      && Text.StartsWith(id, prefix)
      && AllDigitChars(Text.Before(id[|prefix|..], '_'))
      && FromRadix(Text.Before(id[|prefix|..], '_'), 10) == clock
  {
    ClockField(prefix, ToRadix(clock, 10), RandomPart(random));
    FromToRadix(clock, 10);
  }

  /** The digits between a prefix and the next `_` are found again, whatever
      follows the `_`. */
  lemma ClockField(prefix: string, digits: string, tail: string)
    requires AllDigitChars(digits)
    ensures var id := prefix + digits + "_" + tail;
      Text.StartsWith(id, prefix) && Text.Before(id[|prefix|..], '_') == digits
  {
    var rest := digits + "_" + tail;
    var id := prefix + digits + "_" + tail;
    assert id == prefix + rest;
    assert id[..|prefix|] == prefix && id[|prefix|..] == rest;
    NoUnderscoreInDigits(digits);
    Text.BeforeOfJoin(digits, '_', tail);
  }

  lemma NoUnderscoreInDigits(digits: string)
    requires AllDigitChars(digits)
    ensures '_' !in digits
  {
    forall i | 0 <= i < |digits| ensures digits[i] != '_' {
      assert IsDigitChar(digits[i]);
    }
  }

  /** Ids made with the same prefix at different milliseconds differ,
      whatever the random draws. */
  lemma DistinctClocksDistinctStoreIds(prefix: string, c1: nat, r1: seq<nat>, c2: nat, r2: seq<nat>)
    requires IsDigits(r1, 36) && IsDigits(r2, 36) && c1 != c2
    ensures StoreId(prefix, c1, r1) != StoreId(prefix, c2, r2)
  {
    StoreIdClock(prefix, c1, r1);
    StoreIdClock(prefix, c2, r2);
  }

  /** `useAppStore`: the application's in-memory state. */
  class AppStore {
    var inventories: seq<Inventory>
    var currentInventoryId: Option<string>
    var items: seq<Item>

    /** The initial state: empty lists, nothing selected. */
    constructor ()
      ensures inventories == [] && currentInventoryId == None && items == []
    {
      inventories, currentInventoryId, items := [], None, [];
    }

    /** `setCurrentInventory(inventoryId)` */
    method SetCurrentInventory(inventoryId: Option<string>)
      modifies this
      ensures currentInventoryId == inventoryId
      ensures inventories == old(inventories) && items == old(items)
    {
      currentInventoryId := inventoryId;
    }

    /** `addInventory(inventory)`: appended at the end, the rest unchanged. */
    method AddInventory(inventory: Inventory)
      modifies this
      ensures inventories == old(inventories) + [inventory]
      ensures items == old(items) && currentInventoryId == old(currentInventoryId)
    {
      inventories := inventories + [inventory];
    }

    /** `removeInventory(inventoryId)`: the inventory and its items leave the
        lists, the survivors keep their order, and the selection is cleared
        iff it was that inventory. */
    method RemoveInventory(inventoryId: string)
      modifies this
      ensures inventories == WithoutInventory(old(inventories), inventoryId)
      ensures items == WithoutItemsOf(old(items), inventoryId)
      ensures ItemsOf(items, inventoryId) == []
      ensures forall other :: other != inventoryId ==> ItemsOf(items, other) == ItemsOf(old(items), other)
      ensures Subsequence(inventories, old(inventories)) && Subsequence(items, old(items))
      ensures currentInventoryId == if old(currentInventoryId) == Some(inventoryId) then None else old(currentInventoryId)
    {
      DropItemsOf(items, inventoryId);
      RemovalsKeepOrder(inventories, items, inventoryId);
      inventories := WithoutInventory(inventories, inventoryId);
      items := WithoutItemsOf(items, inventoryId);
      currentInventoryId := if currentInventoryId == Some(inventoryId) then None else currentInventoryId;
    }

    /** `updateInventory(inventoryId, updates)`: the inventories with that id
        are merged with the patch and stamped `now`; the others, and the
        length, are unchanged. */
    method UpdateInventory(inventoryId: string, updates: InventoryPatch, now: Timestamp)
      modifies this
      ensures |inventories| == |old(inventories)|
      ensures forall i :: 0 <= i < |inventories| ==>
        inventories[i] == if old(inventories)[i].id == inventoryId then MergeInventory(old(inventories)[i], updates, now)
                          else old(inventories)[i]
      ensures items == old(items) && currentInventoryId == old(currentInventoryId)
    {
      inventories := seq(|inventories|, i requires 0 <= i < |inventories| reads this =>
        if inventories[i].id == inventoryId then MergeInventory(inventories[i], updates, now) else inventories[i]);
    }

    /** `addItem(item)`: appended at the end, the rest unchanged. */
    method AddItem(item: Item)
      modifies this
      ensures items == old(items) + [item]
      ensures inventories == old(inventories) && currentInventoryId == old(currentInventoryId)
    {
      items := items + [item];
    }

    /** `removeItem(itemId)`: the items with that id leave the list, the rest
        keep their order. */
    method RemoveItem(itemId: string)
      modifies this
      ensures items == WithoutItem(old(items), itemId)
      ensures Subsequence(items, old(items))
      ensures inventories == old(inventories) && currentInventoryId == old(currentInventoryId)
    {
      RemovalsKeepOrder(inventories, items, itemId);
      items := WithoutItem(items, itemId);
    }

    /** `updateItem(itemId, updates)`: the items with that id are merged with
        the patch and stamped `now`; the others, and the length, are
        unchanged. */
    method UpdateItem(itemId: string, updates: ItemPatch, now: Timestamp)
      modifies this
      ensures |items| == |old(items)|
      ensures forall i :: 0 <= i < |items| ==>
        items[i] == if old(items)[i].id == itemId then MergeItem(old(items)[i], updates, now) else old(items)[i]
      ensures inventories == old(inventories) && currentInventoryId == old(currentInventoryId)
    {
      items := seq(|items|, i requires 0 <= i < |items| reads this =>
        if items[i].id == itemId then MergeItem(items[i], updates, now) else items[i]);
    }

    /** `createInventory(name, description)`: an inventory with a fresh
        `inv_` id, created and updated at `now`, appended and returned. */
    method CreateInventory(name: string, description: Option<string>, clock: nat, random: seq<nat>, now: Timestamp)
      returns (inventory: Inventory)
      requires IsDigits(random, 36)
      modifies this
      ensures inventory == Inventory(StoreId("inv_", clock, random), name, description, now, now)
      ensures inventories == old(inventories) + [inventory]
      ensures items == old(items) && currentInventoryId == old(currentInventoryId)
    {
      inventory := Inventory(StoreId("inv_", clock, random), name, description, now, now);
      AddInventory(inventory);
    }

    /** `createItem(inventoryId, name, description, barcode)`: an item with a
        fresh `item_` id, quantity 1, entered and updated at `now`, appended
        and returned. */
    method CreateItem(inventoryId: string, name: string, description: Option<string>, barcode: Option<string>,
                      clock: nat, random: seq<nat>, now: Timestamp)
      returns (item: Item)
      requires IsDigits(random, 36)
      modifies this
      ensures item == Item(StoreId("item_", clock, random), inventoryId, name, description, 1,
                           None, None, None, barcode, None, now, now)
      ensures items == old(items) + [item]
      ensures inventories == old(inventories) && currentInventoryId == old(currentInventoryId)
    {
      item := Item(StoreId("item_", clock, random), inventoryId, name, description, 1,
                   None, None, None, barcode, None, now, now);
      AddItem(item);
    }

    /** `getCurrentInventory()` */
    function GetCurrentInventory(): Option<Inventory>
      reads this
    {
      SelectedInventory(inventories, currentInventoryId)
    }

    /** `getCurrentInventoryItems()` */
    function GetCurrentInventoryItems(): seq<Item>
      reads this
    {
      SelectedItems(items, currentInventoryId)
    }
  }
}
