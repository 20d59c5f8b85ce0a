/** The item repository (lib/database/itemRepository.ts): reads and writes of
    the `items` table and the mapping from its rows to `Item` values. */
module ItemRepository {
  import opened Wrappers
  import opened Time
  import opened Schemas
  import opened DatabaseTypes
  import opened Connection
  import Sorting
  import Text
  import Radix
  import IdGenerator

  /** `mapDbToItem`: stored NULLs, empty strings and a zero price become
      absent; the quantity and the dates are kept. */
  function MapDbToItem(row: DbItem): Item {
    Item(row.id, row.inventoryId, row.name, Truthy(row.description), row.quantity,
         TruthyNumber(row.price), Truthy(row.category), Truthy(row.location), Truthy(row.barcode),
         row.expirationDate, row.entryDate, row.updatedAt)
  }

  /** `results.map(mapDbToItem)` */
  function MapItems(rows: seq<DbItem>): (r: seq<Item>)
    ensures |r| == |rows|
    ensures forall i :: 0 <= i < |rows| ==> r[i] == MapDbToItem(rows[i])
  {
    seq(|rows|, i requires 0 <= i < |rows| => MapDbToItem(rows[i]))
  }

  /** `ORDER BY name ASC` */
  predicate NameLe(a: Item, b: Item) {
    Text.StrLe(a.name, b.name)
  }

  lemma NameOrder()
    ensures Sorting.TotalPreorder(NameLe)
  {
    forall a: Item, b: Item
      ensures NameLe(a, b) || NameLe(b, a)
    {
      Text.StrLeTotal(a.name, b.name);
    }
    forall a: Item, b: Item, c: Item | NameLe(a, b) && NameLe(b, c)
      ensures NameLe(a, c)
    {
      Text.StrLeTransitive(a.name, b.name, c.name);
    }
  }

  /** `SELECT * FROM items WHERE id = ?` read with `getFirstAsync`. */
  function FindRow(rows: seq<DbItem>, id: string): (r: Option<DbItem>)
    ensures r.Some? <==> id in ItemIds(rows)
    ensures r.Some? ==> r.value in rows && r.value.id == id
  {
    if rows == [] then None
    else
      assert ItemIds(rows) == {rows[0].id} + ItemIds(rows[1..]) by {
        assert forall i :: 0 < i < |rows| ==> rows[i] == rows[1..][i - 1];
      }
      if rows[0].id == id then Some(rows[0]) else FindRow(rows[1..], id)
  }

  /** The number of rows `DELETE FROM items WHERE id = ?` removes. */
  function CountWithId(rows: seq<DbItem>, id: string): (n: nat)
    ensures n > 0 <==> id in ItemIds(rows)
  {
    var matching := Sorting.Filter(rows, (row: DbItem) => row.id == id);
    assert id in ItemIds(rows) ==> matching != [] by {
      if id in ItemIds(rows) {
        var i :| 0 <= i < |rows| && rows[i].id == id;
        assert rows[i] in matching;
      }
    }
    assert matching != [] ==> id in ItemIds(rows) by {
      if matching != [] {
        var i :| 0 <= i < |rows| && rows[i] == matching[0];
      }
    }
    |matching|
  }

  /** The row `createItem` inserts: empty strings and a zero price are stored as NULL. */
  function NewItemRow(id: string, data: CreateItem, now: Timestamp): DbItem {
    DbItem(id, data.inventoryId, data.name, Truthy(data.description), data.quantity,
           TruthyNumber(data.price), Truthy(data.category), Truthy(data.location), Truthy(data.barcode),
           data.expirationDate, now, now)
  }

  /** The value `createItem` returns: built from `data`, not read back. */
  function CreatedItem(id: string, data: CreateItem, now: Timestamp): Item {
    Item(id, data.inventoryId, data.name, data.description, data.quantity, data.price,
         data.category, data.location, data.barcode, data.expirationDate, now, now)
  }

  lemma AppendKeepsConsistent(inventories: seq<DbInventory>, rows: seq<DbItem>, row: DbItem)
    requires Consistent(inventories, rows)
    requires row.id !in ItemIds(rows) && row.inventoryId in InventoryIds(inventories)
    ensures Consistent(inventories, rows + [row])
    ensures ItemIds(rows + [row]) == ItemIds(rows) + {row.id}
  {
    var rows' := rows + [row];
    assert forall i :: 0 <= i < |rows| ==> rows'[i] == rows[i];
    assert rows'[|rows|] == row;
    assert ItemIds(rows') == ItemIds(rows) + {row.id};
  }

  /** `createItem(data)`, with the clock reading and random draw of
      `generateId` and the `new Date()` of the insert as parameters. The
      engine refuses a duplicate id and an `inventory_id` that names no
      inventory. */
  method CreateItem(db: Database, data: CreateItem, clock: nat, random: seq<nat>,
                    now: Timestamp, fails: bool)
    returns (r: Result<Item, DbError>)
    requires db.Valid() && Radix.IsDigits(random, 36)
    modifies db
    ensures db.Valid()
    ensures var id := IdGenerator.GenerateId(clock, random);
      && (r.Success? <==>
            !fails && id !in ItemIds(old(db.items)) && data.inventoryId in InventoryIds(old(db.inventories)))
      && (r.Success? ==>
            && r.value == CreatedItem(id, data, now)
            && db.items == old(db.items) + [NewItemRow(id, data, now)])
      && (fails ==> r == Failure(ExecutionFailed(EngineFailure)))
      && (!fails && id in ItemIds(old(db.items)) ==> r == Failure(ExecutionFailed(UniqueConstraint)))
      && (&& !fails && id !in ItemIds(old(db.items))
          && data.inventoryId !in InventoryIds(old(db.inventories))
          ==> r == Failure(ExecutionFailed(ForeignKeyConstraint)))
    ensures r.Failure? ==> db.items == old(db.items)
    ensures db.inventories == old(db.inventories)
    ensures db.schemaVersions == old(db.schemaVersions) && db.schemaLog == old(db.schemaLog)
  {
    var id := IdGenerator.GenerateId(clock, random);
    if fails {
      return Failure(ExecutionFailed(EngineFailure));
    }
    if id in ItemIds(db.items) {
      return Failure(ExecutionFailed(UniqueConstraint));
    }
    if data.inventoryId !in InventoryIds(db.inventories) {
      return Failure(ExecutionFailed(ForeignKeyConstraint));
    }
    var row := NewItemRow(id, data, now);
    AppendKeepsConsistent(db.inventories, db.items, row);
    db.items := db.items + [row];
    r := Success(CreatedItem(id, data, now));
  }

  /** `getItemById(id)`: the mapped row with that id, or null. */
  function GetItemById(db: Database, id: string, fails: bool): (r: Result<Option<Item>, DbError>)
    reads db
    ensures r.Success? <==> !fails
    ensures r.Success? ==> (r.value.Some? <==> id in ItemIds(db.items))
    ensures r.Success? && r.value.Some? ==> r.value.value.id == id && r.value.value in MapItems(db.items)
  {
    if fails then Failure(QueryFailed)
    else
      match FindRow(db.items, id)
      case None => Success(None)
      case Some(row) =>
        assert exists i :: 0 <= i < |db.items| && db.items[i] == row;
        Success(Some(MapDbToItem(row)))
  }

  /** `getItemsByInventoryId(inventoryId)`: the items of one inventory in
      ascending name order. Mapping keeps `inventory_id`, so selecting among
      the mapped rows selects the rows the `WHERE` does. */
  function GetItemsByInventoryId(db: Database, inventoryId: string, fails: bool): (r: Result<seq<Item>, DbError>)
    reads db
    ensures r.Success? <==> !fails
    ensures r.Success? ==> forall x :: x in r.value <==> x in MapItems(db.items) && x.inventoryId == inventoryId
    ensures r.Success? ==>
      multiset(r.value) == multiset(Sorting.Filter(MapItems(db.items), (x: Item) => x.inventoryId == inventoryId))
    ensures r.Success? ==> Sorting.SortedBy(r.value, NameLe)
  {
    if fails then Failure(QueryFailed)
    else
      var all := MapItems(db.items);
      var found := Sorting.Select(all, (x: Item) => x.inventoryId == inventoryId, NameLe);
      NameOrder();
      Sorting.SelectSorted(all, (x: Item) => x.inventoryId == inventoryId, NameLe);
      assert forall x :: x in found ==> x in all && x.inventoryId == inventoryId by {
        forall x | x in found ensures x in all && x.inventoryId == inventoryId {
          var i :| 0 <= i < |found| && found[i] == x;
        }
      }
      assert forall x :: x in all && x.inventoryId == inventoryId ==> x in found by {
        forall x | x in all && x.inventoryId == inventoryId ensures x in found {
          var i :| 0 <= i < |all| && all[i] == x;
        }
      }
      Success(found)
  }

  /** A column assignment in `UPDATE items SET ...`. */
  datatype Assignment =
    | SetName(name: string)
    | SetDescription(description: Option<string>)
    | SetQuantity(quantity: int)
    | SetPrice(price: Option<real>)
    | SetCategory(category: Option<string>)
    | SetLocation(location: Option<string>)
    | SetBarcode(barcode: Option<string>)
    | SetExpirationDate(expirationDate: Option<Timestamp>)
    | SetUpdatedAt(at: Timestamp)

  function Assign(row: DbItem, a: Assignment): DbItem {
    match a
    case SetName(v) => row.(name := v)
    case SetDescription(v) => row.(description := v)
    case SetQuantity(v) => row.(quantity := v)
    case SetPrice(v) => row.(price := v)
    case SetCategory(v) => row.(category := v)
    case SetLocation(v) => row.(location := v)
    case SetBarcode(v) => row.(barcode := v)
    case SetExpirationDate(v) => row.(expirationDate := v)
    case SetUpdatedAt(v) => row.(updatedAt := v)
  }

  /** Performs the assignments of a SET clause left to right. */
  function AssignAll(row: DbItem, updates: seq<Assignment>): DbItem {
    if updates == [] then row else Assign(AssignAll(row, updates[..|updates| - 1]), updates[|updates| - 1])
  }

  /** `UPDATE items SET <updates> WHERE id = ?` */
  function UpdateWhere(rows: seq<DbItem>, id: string, updates: seq<Assignment>): (r: seq<DbItem>)
    ensures |r| == |rows|
    ensures forall i :: 0 <= i < |rows| ==> r[i] == if rows[i].id == id then AssignAll(rows[i], updates) else rows[i]
  {
    seq(|rows|, i requires 0 <= i < |rows| => if rows[i].id == id then AssignAll(rows[i], updates) else rows[i])
  }

  /** `updateItem` has nothing to write when no column key is supplied
      (`inventoryId` is never written). */
  predicate IsEmptyUpdate(data: UpdateItem) {
    && data.name.None? && data.description.None? && data.quantity.None? && data.price.None?
    && data.category.None? && data.location.None? && data.barcode.None? && data.expirationDate.None?
  }

  /** The row after `updateItem`: supplied keys replaced (empty strings and a
      zero price stored as NULL), `updated_at` refreshed, the rest kept. */
  function PatchRow(row: DbItem, data: UpdateItem, now: Timestamp): DbItem {
    row.(name := if data.name.Some? then data.name.value else row.name,
         description := if data.description.Some? then Truthy(data.description) else row.description,
         quantity := if data.quantity.Some? then data.quantity.value else row.quantity,
         price := if data.price.Some? then TruthyNumber(data.price) else row.price,
         category := if data.category.Some? then Truthy(data.category) else row.category,
         location := if data.location.Some? then Truthy(data.location) else row.location,
         barcode := if data.barcode.Some? then Truthy(data.barcode) else row.barcode,
         expirationDate := if data.expirationDate.Some? then data.expirationDate else row.expirationDate,
         updatedAt := now)
  }

  /** The table after `updateItem(id, data)` writes. */
  function PatchRows(rows: seq<DbItem>, id: string, data: UpdateItem, now: Timestamp): (r: seq<DbItem>)
    ensures |r| == |rows|
    ensures forall i :: 0 <= i < |rows| ==> r[i] == if rows[i].id == id then PatchRow(rows[i], data, now) else rows[i]
  {
    seq(|rows|, i requires 0 <= i < |rows| => if rows[i].id == id then PatchRow(rows[i], data, now) else rows[i])
  }

  /** The columns `updateItem` may set, in the order it tests their keys. */
  datatype Column = Name | Description | Quantity | Price | Category | Location | Barcode | ExpirationDate

  /** The assignment `updateItem` pushes for a column whose key is supplied
      (empty strings and a zero price become NULL). */
  function Supplied(data: UpdateItem, col: Column): Option<Assignment> {
    match col
    case Name => if data.name.Some? then Some(SetName(data.name.value)) else None
    case Description => if data.description.Some? then Some(SetDescription(Truthy(data.description))) else None
    case Quantity => if data.quantity.Some? then Some(SetQuantity(data.quantity.value)) else None
    case Price => if data.price.Some? then Some(SetPrice(TruthyNumber(data.price))) else None
    case Category => if data.category.Some? then Some(SetCategory(Truthy(data.category))) else None
    case Location => if data.location.Some? then Some(SetLocation(Truthy(data.location))) else None
    case Barcode => if data.barcode.Some? then Some(SetBarcode(Truthy(data.barcode))) else None
    case ExpirationDate => if data.expirationDate.Some? then Some(SetExpirationDate(data.expirationDate)) else None
  }

  /** `if (<key supplied>) updates.push(<assignment>)` */
  function Push(u: seq<Assignment>, a: Option<Assignment>): seq<Assignment> {
    if a.Some? then u + [a.value] else u
  }

  /** One column of `PatchRow`. */
  function PatchColumn(r: DbItem, data: UpdateItem, col: Column): DbItem {
    match col
    case Name => r.(name := if data.name.Some? then data.name.value else r.name)
    case Description => r.(description := if data.description.Some? then Truthy(data.description) else r.description)
    case Quantity => r.(quantity := if data.quantity.Some? then data.quantity.value else r.quantity)
    case Price => r.(price := if data.price.Some? then TruthyNumber(data.price) else r.price)
    case Category => r.(category := if data.category.Some? then Truthy(data.category) else r.category)
    case Location => r.(location := if data.location.Some? then Truthy(data.location) else r.location)
    case Barcode => r.(barcode := if data.barcode.Some? then Truthy(data.barcode) else r.barcode)
    case ExpirationDate =>
      r.(expirationDate := if data.expirationDate.Some? then data.expirationDate else r.expirationDate)
  }

  /** The columns in the order `updateItem` tests their keys. */
  const COLUMNS: seq<Column> := [Name, Description, Quantity, Price, Category, Location, Barcode, ExpirationDate]

  /** The pushes for `cols`, in order, onto `u`. */
  function PushAll(u: seq<Assignment>, data: UpdateItem, cols: seq<Column>): seq<Assignment>
    decreases |cols|
  {
    if cols == [] then u else PushAll(Push(u, Supplied(data, cols[0])), data, cols[1..])
  }

  /** `cols` patched in turn. */
  function PatchAll(r: DbItem, data: UpdateItem, cols: seq<Column>): DbItem
    decreases |cols|
  {
    if cols == [] then r else PatchAll(PatchColumn(r, data, cols[0]), data, cols[1..])
  }

  /** A push performs its assignment after the earlier ones. */
  lemma PushAssigns(row: DbItem, u: seq<Assignment>, a: Option<Assignment>)
    ensures AssignAll(row, Push(u, a)) == if a.Some? then Assign(AssignAll(row, u), a.value) else AssignAll(row, u)
  {
    if a.Some? {
      assert (u + [a.value])[..|u|] == u;
    }
  }

  /** Pushing a column's assignment patches that column. */
  lemma PushPatches(row: DbItem, u: seq<Assignment>, data: UpdateItem, col: Column)
    ensures AssignAll(row, Push(u, Supplied(data, col))) == PatchColumn(AssignAll(row, u), data, col)
  {
    PushAssigns(row, u, Supplied(data, col));
  }

  lemma {:induction false} PushAllPatches(row: DbItem, u: seq<Assignment>, data: UpdateItem, cols: seq<Column>)
    ensures AssignAll(row, PushAll(u, data, cols)) == PatchAll(AssignAll(row, u), data, cols)
    decreases |cols|
  {
    if cols != [] {
      PushPatches(row, u, data, cols[0]);
      PushAllPatches(row, Push(u, Supplied(data, cols[0])), data, cols[1..]);
    }
  }

  /** `PushAll` over the column list is the eight pushes of `updateItem`, in order. */
  lemma PushAllUnrolled(data: UpdateItem)
    ensures PushAll([], data, COLUMNS) ==
      Push(Push(Push(Push(Push(Push(Push(Push([],
        Supplied(data, Name)), Supplied(data, Description)), Supplied(data, Quantity)),
        Supplied(data, Price)), Supplied(data, Category)), Supplied(data, Location)),
        Supplied(data, Barcode)), Supplied(data, ExpirationDate))
  {
    var c := COLUMNS;
    var u1 := Push([], Supplied(data, Name));
    var u2 := Push(u1, Supplied(data, Description));
    var u3 := Push(u2, Supplied(data, Quantity));
    var u4 := Push(u3, Supplied(data, Price));
    var u5 := Push(u4, Supplied(data, Category));
    var u6 := Push(u5, Supplied(data, Location));
    var u7 := Push(u6, Supplied(data, Barcode));
    var u8 := Push(u7, Supplied(data, ExpirationDate));
    assert c[8..] == [];
    assert PushAll(u7, data, c[7..]) == u8;
    assert PushAll(u6, data, c[6..]) == u8;
    assert PushAll(u5, data, c[5..]) == u8;
    assert PushAll(u4, data, c[4..]) == u8;
    assert PushAll(u3, data, c[3..]) == u8;
    assert PushAll(u2, data, c[2..]) == u8;
    assert PushAll(u1, data, c[1..]) == u8;
  }

  /** `PushAll` over the columns is empty exactly when no key is supplied. */
  lemma {:induction false} PushAllEmpty(u: seq<Assignment>, data: UpdateItem, cols: seq<Column>)
    ensures |PushAll(u, data, cols)| == 0 <==> u == [] && forall k :: 0 <= k < |cols| ==> Supplied(data, cols[k]).None?
    decreases |cols|
  {
    if cols != [] {
      PushAllEmpty(Push(u, Supplied(data, cols[0])), data, cols[1..]);
      assert forall k :: 1 <= k < |cols| ==> cols[k] == cols[1..][k - 1];
    }
  }

  lemma PatchAllIsPatchRow(row: DbItem, data: UpdateItem, now: Timestamp)
    ensures PatchAll(row, data, COLUMNS).(updatedAt := now) == PatchRow(row, data, now)
  {
    var c := COLUMNS;
    var r1 := PatchColumn(row, data, Name);
    var r2 := PatchColumn(r1, data, Description);
    var r3 := PatchColumn(r2, data, Quantity);
    var r4 := PatchColumn(r3, data, Price);
    var r5 := PatchColumn(r4, data, Category);
    var r6 := PatchColumn(r5, data, Location);
    var r7 := PatchColumn(r6, data, Barcode);
    var r8 := PatchColumn(r7, data, ExpirationDate);
    assert c[8..] == [];
    assert PatchAll(r7, data, c[7..]) == r8;
    assert PatchAll(r6, data, c[6..]) == r8;
    assert PatchAll(r5, data, c[5..]) == r8;
    assert PatchAll(r4, data, c[4..]) == r8;
    assert PatchAll(r3, data, c[3..]) == r8;
    assert PatchAll(r2, data, c[2..]) == r8;
    assert PatchAll(r1, data, c[1..]) == r8;
    assert PatchAll(row, data, c) == r8;
  }

  /** No key supplied is exactly an empty list of pushes. */
  lemma ClauseEmpty(data: UpdateItem)
    ensures |PushAll([], data, COLUMNS)| == 0 <==> IsEmptyUpdate(data)
  {
    PushAllEmpty([], data, COLUMNS);
    var c := COLUMNS;
    assert c[0] == Name && c[1] == Description && c[2] == Quantity && c[3] == Price;
    assert c[4] == Category && c[5] == Location && c[6] == Barcode && c[7] == ExpirationDate;
  }

  /** The SET clause `updateItem` sends performs exactly `PatchRow` on every matched row. */
  lemma UpdateWhereIsPatch(rows: seq<DbItem>, id: string, data: UpdateItem, now: Timestamp,
                           updates: seq<Assignment>)
    requires updates == PushAll([], data, COLUMNS) + [SetUpdatedAt(now)]
    ensures UpdateWhere(rows, id, updates) == PatchRows(rows, id, data, now)
  {
    var u := PushAll([], data, COLUMNS);
    assert updates[..|u|] == u;
    forall i | 0 <= i < |rows|
      ensures UpdateWhere(rows, id, updates)[i] == PatchRows(rows, id, data, now)[i]
    {
      PushAllPatches(rows[i], [], data, COLUMNS);
      PatchAllIsPatchRow(rows[i], data, now);
    }
  }

  /** Rewriting item rows in place with their ids and `inventory_id`s kept
      keeps the constraints. */
  lemma SameKeysKeepConsistent(inventories: seq<DbInventory>, rows: seq<DbItem>, rows': seq<DbItem>)
    requires Consistent(inventories, rows) && |rows'| == |rows|
    requires forall i :: 0 <= i < |rows| ==> rows'[i].id == rows[i].id && rows'[i].inventoryId == rows[i].inventoryId
    ensures Consistent(inventories, rows') && ItemIds(rows') == ItemIds(rows)
  {
    assert ItemIds(rows') == ItemIds(rows) by {
      forall x | x in ItemIds(rows) ensures x in ItemIds(rows') {
        var i :| 0 <= i < |rows| && rows[i].id == x;
        assert rows'[i].id == x;
      }
    }
  }

  /** `updateItem(id, data)`. An update with no column key is a plain fetch.
      Otherwise the UPDATE runs (and may fail); no matched row gives null;
      else the row is read back (and that read may fail on its own). */
  method UpdateItem(db: Database, id: string, data: UpdateItem, now: Timestamp,
                    writeFails: bool, readFails: bool)
    returns (r: Result<Option<Item>, DbError>)
    requires db.Valid()
    modifies db
    ensures db.Valid()
    ensures IsEmptyUpdate(data) ==>
      db.items == old(db.items) && r == GetItemById(db, id, readFails)
    ensures !IsEmptyUpdate(data) && writeFails ==>
      db.items == old(db.items) && r == Failure(ExecutionFailed(EngineFailure))
    ensures !IsEmptyUpdate(data) && !writeFails ==>
      && db.items == PatchRows(old(db.items), id, data, now)
      && r == (if id in ItemIds(old(db.items)) then GetItemById(db, id, readFails) else Success(None))
    ensures db.inventories == old(db.inventories)
    ensures db.schemaVersions == old(db.schemaVersions) && db.schemaLog == old(db.schemaLog)
  {
    var updates: seq<Assignment> := [];
    updates := Push(updates, Supplied(data, Name));
    updates := Push(updates, Supplied(data, Description));
    updates := Push(updates, Supplied(data, Quantity));
    updates := Push(updates, Supplied(data, Price));
    updates := Push(updates, Supplied(data, Category));
    updates := Push(updates, Supplied(data, Location));
    updates := Push(updates, Supplied(data, Barcode));
    updates := Push(updates, Supplied(data, ExpirationDate));
    PushAllUnrolled(data);
    ClauseEmpty(data);
    if |updates| == 0 {
      return GetItemById(db, id, readFails);
    }
    updates := updates + [SetUpdatedAt(now)];
    if writeFails {
      return Failure(ExecutionFailed(EngineFailure));
    }
    UpdateWhereIsPatch(db.items, id, data, now, updates);
    var changes := CountWithId(db.items, id);
    SameKeysKeepConsistent(db.inventories, db.items, UpdateWhere(db.items, id, updates));
    db.items := UpdateWhere(db.items, id, updates);
    if changes == 0 {
      return Success(None);
    }
    r := GetItemById(db, id, readFails);
  }

  /** The table after `DELETE FROM items WHERE id = ?`. */
  function RemoveItemRow(rows: seq<DbItem>, id: string): seq<DbItem> {
    Sorting.Filter(rows, (row: DbItem) => row.id != id)
  }

  /** Deleting an item removes exactly that id and keeps the constraints. */
  lemma DeleteKeepsConsistent(inventories: seq<DbInventory>, rows: seq<DbItem>, id: string)
    requires Consistent(inventories, rows)
    ensures ItemIds(RemoveItemRow(rows, id)) == ItemIds(rows) - {id}
    ensures Consistent(inventories, RemoveItemRow(rows, id))
  {
    var rows' := RemoveItemRow(rows, id);
    forall x | x in ItemIds(rows) - {id} ensures x in ItemIds(rows') {
      var i :| 0 <= i < |rows| && rows[i].id == x;
      assert rows[i] in rows';
    }
    forall j | 0 <= j < |rows'| ensures rows'[j].id in ItemIds(rows) && rows'[j].inventoryId in InventoryIds(inventories) {
      var k :| 0 <= k < |rows| && rows[k] == rows'[j];
    }
    FilterKeepsUniqueItems(rows, (row: DbItem) => row.id != id);
  }

  /** `deleteItem(id)`: true iff a row with that id was removed. */
  method DeleteItem(db: Database, id: string, fails: bool) returns (r: Result<bool, DbError>)
    requires db.Valid()
    modifies db
    ensures db.Valid()
    ensures fails ==> r == Failure(ExecutionFailed(EngineFailure)) && db.items == old(db.items)
    ensures !fails ==>
      && r == Success(id in ItemIds(old(db.items)))
      && db.items == RemoveItemRow(old(db.items), id)
    ensures db.inventories == old(db.inventories)
    ensures db.schemaVersions == old(db.schemaVersions) && db.schemaLog == old(db.schemaLog)
  {
    if fails {
      return Failure(ExecutionFailed(EngineFailure));
    }
    var changes := CountWithId(db.items, id);
    DeleteKeepsConsistent(db.inventories, db.items, id);
    db.items := RemoveItemRow(db.items, id);
    r := Success(changes > 0);
  }

  /** The rows `WHERE inventory_id = ?` selects. */
  function RowsOf(rows: seq<DbItem>, inventoryId: string): seq<DbItem> {
    Sorting.Filter(rows, (row: DbItem) => row.inventoryId == inventoryId)
  }

  /** `getItemCountByInventoryId(inventoryId)`: `COUNT(*)` of the inventory's rows. */
  function GetItemCountByInventoryId(db: Database, inventoryId: string, fails: bool): (r: Result<nat, DbError>)
    reads db
    ensures r.Success? <==> !fails
    ensures r.Success? ==> r.value == |RowsOf(db.items, inventoryId)|
    ensures r.Success? && inventoryId !in InventoryIds(db.inventories) && ReferencesHold(db.inventories, db.items)
            ==> r.value == 0
  {
    if fails then Failure(QueryFailed)
    else
      var rows := RowsOf(db.items, inventoryId);
      assert inventoryId !in InventoryIds(db.inventories) && ReferencesHold(db.inventories, db.items) ==> rows == [] by {
        if rows != [] && ReferencesHold(db.inventories, db.items) {
          var k :| 0 <= k < |db.items| && db.items[k] == rows[0];
        }
      }
      Success(|rows|)
  }

  /** The count agrees with the listing: as many items as
      `getItemsByInventoryId` returns. */
  lemma CountMatchesListing(db: Database, inventoryId: string)
    ensures GetItemCountByInventoryId(db, inventoryId, false).value
            == |GetItemsByInventoryId(db, inventoryId, false).value|
  {
    var all := MapItems(db.items);
    var p := (x: Item) => x.inventoryId == inventoryId;
    var found := Sorting.Select(all, p, NameLe);
    assert |found| == |multiset(Sorting.Filter(all, p))|;
    FilterMapLength(db.items, inventoryId);
  }

  lemma {:induction false} FilterMapLength(rows: seq<DbItem>, inventoryId: string)
    ensures |Sorting.Filter(MapItems(rows), (x: Item) => x.inventoryId == inventoryId)| == |RowsOf(rows, inventoryId)|
  {
    if rows != [] {
      assert MapItems(rows)[1..] == MapItems(rows[1..]);
      FilterMapLength(rows[1..], inventoryId);
    }
  }

  /** `name LIKE '%q%' OR description LIKE '%q%'` on a mapped row (an absent
      description never matches). */
  predicate Matches(item: Item, query: string) {
    Text.Contains(item.name, query) || (item.description.Some? && Text.Contains(item.description.value, query))
  }

  /** `searchItemsInInventory(inventoryId, query)`: exactly the inventory's
      items whose name or description contains the query, in ascending name order. */
  function SearchItemsInInventory(db: Database, inventoryId: string, query: string, fails: bool)
    : (r: Result<seq<Item>, DbError>)
    reads db
    ensures r.Success? <==> !fails
    ensures r.Success? ==> forall x :: x in r.value <==>
      x in MapItems(db.items) && x.inventoryId == inventoryId && Matches(x, query)
    ensures r.Success? ==>
      multiset(r.value) == multiset(Sorting.Filter(MapItems(db.items), (x: Item) => x.inventoryId == inventoryId && Matches(x, query)))
    ensures r.Success? ==> Sorting.SortedBy(r.value, NameLe)
  {
    if fails then Failure(QueryFailed)
    else
      var all := MapItems(db.items);
      var p := (x: Item) => x.inventoryId == inventoryId && Matches(x, query);
      var found := Sorting.Select(all, p, NameLe);
      NameOrder();
      Sorting.SelectSorted(all, p, NameLe);
      assert forall x :: x in found ==> x in all && p(x) by {
        forall x | x in found ensures x in all && p(x) {
          var i :| 0 <= i < |found| && found[i] == x;
        }
      }
      assert forall x :: x in all && p(x) ==> x in found by {
        forall x | x in all && p(x) ensures x in found {
          var i :| 0 <= i < |all| && all[i] == x;
        }
      }
      Success(found)
  }

  /** `SELECT * FROM items WHERE barcode = ?` read with `getFirstAsync`. */
  function FindBarcodeRow(rows: seq<DbItem>, barcode: string): (r: Option<DbItem>)
    ensures r.Some? <==> exists j :: 0 <= j < |rows| && rows[j].barcode == Some(barcode)
    ensures r.Some? ==> r.value in rows && r.value.barcode == Some(barcode)
  {
    if rows == [] then None
    else if rows[0].barcode == Some(barcode) then Some(rows[0])
    else
      var r := FindBarcodeRow(rows[1..], barcode);
      assert (exists j :: 0 <= j < |rows| && rows[j].barcode == Some(barcode))
         ==> exists j :: 0 <= j < |rows[1..]| && rows[1..][j].barcode == Some(barcode) by {
        if exists j :: 0 <= j < |rows| && rows[j].barcode == Some(barcode) {
          var j :| 0 <= j < |rows| && rows[j].barcode == Some(barcode);
          assert rows[1..][j - 1] == rows[j];
        }
      }
      r
  }

  /** `findItemByBarcode(barcode)`: an item carrying that barcode, or null
      when none does. */
  function FindItemByBarcode(db: Database, barcode: string, fails: bool): (r: Result<Option<Item>, DbError>)
    reads db
    ensures r.Success? <==> !fails
    ensures r.Success? ==> (r.value.Some? <==> exists j :: 0 <= j < |db.items| && db.items[j].barcode == Some(barcode))
    ensures r.Success? && r.value.Some? ==>
      r.value.value in MapItems(db.items) && (barcode != "" ==> r.value.value.barcode == Some(barcode))
  {
    if fails then Failure(QueryFailed)
    else
      match FindBarcodeRow(db.items, barcode)
      case None => Success(None)
      case Some(row) =>
        assert exists i :: 0 <= i < |db.items| && db.items[i] == row;
        Success(Some(MapDbToItem(row)))
  }

  /** Creating and reading back: the stored row maps to the returned value
      once empty strings and a zero price are taken as absent. */
  lemma CreatedItemReadBack(rows: seq<DbItem>, id: string, data: CreateItem, now: Timestamp)
    requires id !in ItemIds(rows)
    ensures FindRow(rows + [NewItemRow(id, data, now)], id) == Some(NewItemRow(id, data, now))
    ensures var c := CreatedItem(id, data, now);
      MapDbToItem(NewItemRow(id, data, now))
        == c.(description := Truthy(c.description), price := TruthyNumber(c.price),
              category := Truthy(c.category), location := Truthy(c.location), barcode := Truthy(c.barcode))
  {
    FindLast(rows, NewItemRow(id, data, now));
  }

  lemma {:induction false} FindLast(rows: seq<DbItem>, row: DbItem)
    requires row.id !in ItemIds(rows)
    ensures FindRow(rows + [row], row.id) == Some(row)
  {
    if rows != [] {
      assert (rows + [row])[1..] == rows[1..] + [row];
      assert rows[0].id != row.id by {
        assert rows[0].id in ItemIds(rows);
      }
      assert row.id !in ItemIds(rows[1..]) by {
        forall i | 0 <= i < |rows[1..]| ensures rows[1..][i].id != row.id {
          assert rows[1..][i] == rows[i + 1];
          assert rows[i + 1].id in ItemIds(rows);
        }
      }
      FindLast(rows[1..], row);
    }
  }

  /** What an update leaves alone: every other row, and in the updated row
      the id, `inventory_id` (even when `data` supplies one) and
      `entry_date`; `updated_at` becomes `now`. */
  lemma UpdateFrame(rows: seq<DbItem>, id: string, data: UpdateItem, now: Timestamp, i: nat)
    requires i < |rows|
    ensures var r := PatchRows(rows, id, data, now)[i];
      && (rows[i].id != id ==> r == rows[i])
      && (rows[i].id == id ==>
            && r.id == id && r.inventoryId == rows[i].inventoryId
            && r.entryDate == rows[i].entryDate && r.updatedAt == now
            && (data.quantity.None? ==> r.quantity == rows[i].quantity)
            && (data.price.Some? ==> r.price == TruthyNumber(data.price)))
  {
  }
}
