/** The inventory repository (lib/database/inventoryRepository.ts): reads and
    writes of the `inventories` table and the mapping from its rows to
    `Inventory` values. */
module InventoryRepository {
  import opened Wrappers
  import opened Time
  import opened Schemas
  import opened DatabaseTypes
  import opened Connection
  import Sorting
  import Text
  import Radix
  import IdGenerator

  /** `mapDbToInventory`: a stored NULL or empty description becomes absent. */
  function MapDbToInventory(row: DbInventory): Inventory {
    Inventory(row.id, row.name, Truthy(row.description), row.createdAt, row.updatedAt)
  }

  /** `results.map(mapDbToInventory)` */
  function MapInventories(rows: seq<DbInventory>): (r: seq<Inventory>)
    ensures |r| == |rows|
    ensures forall i :: 0 <= i < |rows| ==> r[i] == MapDbToInventory(rows[i])
  {
    seq(|rows|, i requires 0 <= i < |rows| => MapDbToInventory(rows[i]))
  }

  /** `ORDER BY name ASC` */
  predicate NameLe(a: Inventory, b: Inventory) {
    Text.StrLe(a.name, b.name)
  }

  lemma NameOrder()
    ensures Sorting.TotalPreorder(NameLe)
  {
    forall a: Inventory, b: Inventory
      ensures NameLe(a, b) || NameLe(b, a)
    {
      Text.StrLeTotal(a.name, b.name);
    }
    forall a: Inventory, b: Inventory, c: Inventory | NameLe(a, b) && NameLe(b, c)
      ensures NameLe(a, c)
    {
      Text.StrLeTransitive(a.name, b.name, c.name);
    }
  }

  /** `WHERE id = ?` read with `getFirstAsync`: the first row with that id. */
  function FindRow(rows: seq<DbInventory>, id: string): (r: Option<DbInventory>)
    ensures r.Some? <==> id in InventoryIds(rows)
    ensures r.Some? ==> r.value in rows && r.value.id == id
  {
    if rows == [] then None
    else
      assert InventoryIds(rows) == {rows[0].id} + InventoryIds(rows[1..]) by {
        assert forall i :: 0 < i < |rows| ==> rows[i] == rows[1..][i - 1];
      }
      if rows[0].id == id then Some(rows[0]) else FindRow(rows[1..], id)
  }

  /** `COUNT(*) ... WHERE id = ?` */
  function CountWithId(rows: seq<DbInventory>, id: string): (n: nat)
    ensures n > 0 <==> id in InventoryIds(rows)
  {
    var matching := Sorting.Filter(rows, (row: DbInventory) => row.id == id);
    assert id in InventoryIds(rows) ==> matching != [] by {
      if id in InventoryIds(rows) {
        var i :| 0 <= i < |rows| && rows[i].id == id;
        assert rows[i] in matching;
      }
    }
    assert matching != [] ==> id in InventoryIds(rows) by {
      if matching != [] {
        var i :| 0 <= i < |rows| && rows[i] == matching[0];
      }
    }
    |matching|
  }

  /** The row `createInventory` inserts: an empty description is stored as NULL. */
  function NewInventoryRow(id: string, data: CreateInventory, now: Timestamp): DbInventory {
    DbInventory(id, data.name, Truthy(data.description), now, now)
  }

  /** `createInventory(data)`, with the clock reading and random draw of
      `generateId` and the `new Date()` of the insert as parameters. The
      returned value is built from `data`, not read back. */
  method CreateInventory(db: Database, data: CreateInventory, clock: nat, random: seq<nat>,
                         now: Timestamp, fails: bool)
    returns (r: Result<Inventory, DbError>)
    requires db.Valid() && Radix.IsDigits(random, 36)
    modifies db
    ensures db.Valid()
    ensures var id := IdGenerator.GenerateId(clock, random);
      && (r.Success? <==> !fails && id !in InventoryIds(old(db.inventories)))
      && (r.Success? ==>
            && r.value == Inventory(id, data.name, data.description, now, now)
            && db.inventories == old(db.inventories) + [NewInventoryRow(id, data, now)])
      && (fails ==> r == Failure(ExecutionFailed(EngineFailure)))
      && (!fails && r.Failure? ==> r == Failure(ExecutionFailed(UniqueConstraint)))
    ensures r.Failure? ==> db.inventories == old(db.inventories)
    ensures db.items == old(db.items)
    ensures db.schemaVersions == old(db.schemaVersions) && db.schemaLog == old(db.schemaLog)
  {
    var id := IdGenerator.GenerateId(clock, random);
    if fails {
      return Failure(ExecutionFailed(EngineFailure));
    }
    if id in InventoryIds(db.inventories) {
      return Failure(ExecutionFailed(UniqueConstraint));
    }
    var row := NewInventoryRow(id, data, now);
    AppendKeepsConsistent(db.inventories, db.items, row);
    db.inventories := db.inventories + [row];
    r := Success(Inventory(id, data.name, data.description, now, now));
  }

  lemma AppendKeepsConsistent(rows: seq<DbInventory>, items: seq<DbItem>, row: DbInventory)
    requires Consistent(rows, items) && row.id !in InventoryIds(rows)
    ensures Consistent(rows + [row], items)
    ensures InventoryIds(rows + [row]) == InventoryIds(rows) + {row.id}
  {
    var rows' := rows + [row];
    assert forall i :: 0 <= i < |rows| ==> rows'[i] == rows[i];
    assert rows'[|rows|] == row;
    assert InventoryIds(rows') == InventoryIds(rows) + {row.id};
  }

  /** `getInventoryById(id)`: the mapped row with that id, or null. */
  function GetInventoryById(db: Database, id: string, fails: bool): (r: Result<Option<Inventory>, DbError>)
    reads db
    ensures r.Success? <==> !fails
    ensures r.Success? ==> (r.value.Some? <==> id in InventoryIds(db.inventories))
    ensures r.Success? && r.value.Some? ==>
      r.value.value.id == id && r.value.value in MapInventories(db.inventories)
  {
    if fails then Failure(QueryFailed)
    else
      match FindRow(db.inventories, id)
      case None => Success(None)
      case Some(row) =>
        assert exists i :: 0 <= i < |db.inventories| && db.inventories[i] == row;
        Success(Some(MapDbToInventory(row)))
  }

  /** `getAllInventories()`: every row, mapped, in ascending name order. */
  function GetAllInventories(db: Database, fails: bool): (r: Result<seq<Inventory>, DbError>)
    reads db
    ensures r.Success? <==> !fails
    ensures r.Success? ==> multiset(r.value) == multiset(MapInventories(db.inventories))
    ensures r.Success? ==> Sorting.SortedBy(r.value, NameLe)
  {
    if fails then Failure(QueryFailed)
    else
      var all := MapInventories(db.inventories);
      NameOrder();
      Sorting.SortSorted(all, NameLe);
      Success(Sorting.Sort(all, NameLe))
  }

  /** A column assignment in `UPDATE inventories SET ...`. */
  datatype Assignment = SetName(name: string) | SetDescription(description: Option<string>) | SetUpdatedAt(at: Timestamp)

  function Assign(row: DbInventory, a: Assignment): DbInventory {
    match a
    case SetName(n) => row.(name := n)
    case SetDescription(d) => row.(description := d)
    case SetUpdatedAt(t) => row.(updatedAt := t)
  }

  /** Performs the assignments of a SET clause left to right. */
  function AssignAll(row: DbInventory, updates: seq<Assignment>): DbInventory {
    if updates == [] then row else Assign(AssignAll(row, updates[..|updates| - 1]), updates[|updates| - 1])
  }

  /** `UPDATE inventories SET <updates> WHERE id = ?` */
  function UpdateWhere(rows: seq<DbInventory>, id: string, updates: seq<Assignment>): (r: seq<DbInventory>)
    ensures |r| == |rows|
    ensures forall i :: 0 <= i < |rows| ==> r[i] == if rows[i].id == id then AssignAll(rows[i], updates) else rows[i]
  {
    seq(|rows|, i requires 0 <= i < |rows| => if rows[i].id == id then AssignAll(rows[i], updates) else rows[i])
  }

  /** `updateInventory` has nothing to write when neither key is supplied. */
  predicate IsEmptyUpdate(data: UpdateInventory) {
    data.name.None? && data.description.None?
  }

  /** The row after `updateInventory`: supplied keys replaced (an empty
      description stored as NULL), `updated_at` refreshed, the rest kept. */
  function PatchRow(row: DbInventory, data: UpdateInventory, now: Timestamp): DbInventory {
    row.(name := if data.name.Some? then data.name.value else row.name,
         description := if data.description.Some? then Truthy(data.description) else row.description,
         updatedAt := now)
  }

  /** The table after `updateInventory(id, data)` writes. */
  function PatchRows(rows: seq<DbInventory>, id: string, data: UpdateInventory, now: Timestamp): (r: seq<DbInventory>)
    ensures |r| == |rows|
    ensures forall i :: 0 <= i < |rows| ==> r[i] == if rows[i].id == id then PatchRow(rows[i], data, now) else rows[i]
  {
    seq(|rows|, i requires 0 <= i < |rows| => if rows[i].id == id then PatchRow(rows[i], data, now) else rows[i])
  }

  /** The SET clause `updateInventory` builds performs exactly `PatchRow`. */
  lemma AssignmentsArePatch(row: DbInventory, data: UpdateInventory, now: Timestamp, updates: seq<Assignment>)
    requires updates ==
      (if data.name.Some? then [SetName(data.name.value)] else [])
      + (if data.description.Some? then [SetDescription(Truthy(data.description))] else [])
      + [SetUpdatedAt(now)]
    ensures AssignAll(row, updates) == PatchRow(row, data, now)
  {
    var front := updates[..|updates| - 1];
    if data.name.Some? && data.description.Some? {
      var a, b := SetName(data.name.value), SetDescription(Truthy(data.description));
      assert front == [a, b] && front[..1] == [a];
      assert AssignAll(row, [a]) == Assign(row, a) by {
        assert [a][..0] == [];
      }
    } else if data.name.Some? {
      assert front == [SetName(data.name.value)] && front[..0] == [];
      assert AssignAll(row, front) == row.(name := data.name.value);
    } else if data.description.Some? {
      assert front == [SetDescription(Truthy(data.description))] && front[..0] == [];
      assert AssignAll(row, front) == row.(description := Truthy(data.description));
    } else {
      assert front == [];
    }
  }

  lemma UpdateWhereIsPatch(rows: seq<DbInventory>, id: string, data: UpdateInventory, now: Timestamp,
                           updates: seq<Assignment>)
    requires updates ==
      (if data.name.Some? then [SetName(data.name.value)] else [])
      + (if data.description.Some? then [SetDescription(Truthy(data.description))] else [])
      + [SetUpdatedAt(now)]
    ensures UpdateWhere(rows, id, updates) == PatchRows(rows, id, data, now)
  {
    forall i | 0 <= i < |rows|
      ensures UpdateWhere(rows, id, updates)[i] == PatchRows(rows, id, data, now)[i]
    {
      AssignmentsArePatch(rows[i], data, now, updates);
    }
  }

  /** Rewriting rows in place keeps the ids, so it keeps the constraints. */
  lemma SameIdsKeepConsistent(rows: seq<DbInventory>, rows': seq<DbInventory>, items: seq<DbItem>)
    requires Consistent(rows, items) && |rows'| == |rows|
    requires forall i :: 0 <= i < |rows| ==> rows'[i].id == rows[i].id
    ensures Consistent(rows', items) && InventoryIds(rows') == InventoryIds(rows)
  {
    assert InventoryIds(rows') == InventoryIds(rows) by {
      forall x | x in InventoryIds(rows) ensures x in InventoryIds(rows') {
        var i :| 0 <= i < |rows| && rows[i].id == x;
        assert rows'[i].id == x;
      }
    }
  }

  /** `updateInventory(id, data)`. An update with no key is a plain fetch.
      Otherwise the UPDATE runs (and may fail); no matched row gives null;
      else the row is read back (and that read may fail on its own). */
  method UpdateInventory(db: Database, id: string, data: UpdateInventory, now: Timestamp,
                         writeFails: bool, readFails: bool)
    returns (r: Result<Option<Inventory>, DbError>)
    requires db.Valid()
    modifies db
    ensures db.Valid()
    ensures IsEmptyUpdate(data) ==>
      db.inventories == old(db.inventories) && r == GetInventoryById(db, id, readFails)
    ensures !IsEmptyUpdate(data) && writeFails ==>
      db.inventories == old(db.inventories) && r == Failure(ExecutionFailed(EngineFailure))
    ensures !IsEmptyUpdate(data) && !writeFails ==>
      && db.inventories == PatchRows(old(db.inventories), id, data, now)
      && r == (if id in InventoryIds(old(db.inventories)) then GetInventoryById(db, id, readFails) else Success(None))
    ensures db.items == old(db.items)
    ensures db.schemaVersions == old(db.schemaVersions) && db.schemaLog == old(db.schemaLog)
  {
    var updates: seq<Assignment> := [];
    if data.name.Some? {
      updates := updates + [SetName(data.name.value)];
    }
    if data.description.Some? {
      updates := updates + [SetDescription(Truthy(data.description))];
    }
    if |updates| == 0 {
      return GetInventoryById(db, id, readFails);
    }
    updates := updates + [SetUpdatedAt(now)];
    if writeFails {
      return Failure(ExecutionFailed(EngineFailure));
    }
    UpdateWhereIsPatch(db.inventories, id, data, now, updates);
    var changes := CountWithId(db.inventories, id);
    SameIdsKeepConsistent(db.inventories, UpdateWhere(db.inventories, id, updates), db.items);
    db.inventories := UpdateWhere(db.inventories, id, updates);
    if changes == 0 {
      return Success(None);
    }
    r := GetInventoryById(db, id, readFails);
  }

  /** The table after `DELETE FROM inventories WHERE id = ?`. */
  function RemoveInventoryRow(rows: seq<DbInventory>, id: string): seq<DbInventory> {
    Sorting.Filter(rows, (row: DbInventory) => row.id != id)
  }

  /** What `ON DELETE CASCADE` leaves of `items` when inventory `id` goes. */
  function CascadeItems(items: seq<DbItem>, id: string): seq<DbItem> {
    Sorting.Filter(items, (item: DbItem) => item.inventoryId != id)
  }

  /** Deleting an inventory with its cascade removes exactly that id, leaves no
      item referring to it, and keeps the constraints. */
  lemma DeleteCascadeConsistent(rows: seq<DbInventory>, items: seq<DbItem>, id: string)
    requires Consistent(rows, items)
    ensures InventoryIds(RemoveInventoryRow(rows, id)) == InventoryIds(rows) - {id}
    ensures forall j :: 0 <= j < |CascadeItems(items, id)| ==> CascadeItems(items, id)[j].inventoryId != id
    ensures Consistent(RemoveInventoryRow(rows, id), CascadeItems(items, id))
  {
    var rows', items' := RemoveInventoryRow(rows, id), CascadeItems(items, id);
    assert InventoryIds(rows') == InventoryIds(rows) - {id} by {
      forall x | x in InventoryIds(rows) - {id} ensures x in InventoryIds(rows') {
        var i :| 0 <= i < |rows| && rows[i].id == x;
        assert rows[i] in rows';
      }
      forall x | x in InventoryIds(rows') ensures x in InventoryIds(rows) - {id} {
        var i :| 0 <= i < |rows'| && rows'[i].id == x;
        assert rows'[i] in rows;
      }
    }
    FilterKeepsUniqueInventories(rows, (row: DbInventory) => row.id != id);
    FilterKeepsUniqueItems(items, (item: DbItem) => item.inventoryId != id);
    forall j | 0 <= j < |items'|
      ensures items'[j].inventoryId in InventoryIds(rows')
    {
      var k :| 0 <= k < |items| && items[k] == items'[j];
    }
  }

  /** `deleteInventory(id)`: true iff a row with that id was removed; the
      foreign key's cascade removes the inventory's items with it. */
  method DeleteInventory(db: Database, id: string, fails: bool) returns (r: Result<bool, DbError>)
    requires db.Valid()
    modifies db
    ensures db.Valid()
    ensures fails ==>
      && r == Failure(ExecutionFailed(EngineFailure))
      && db.inventories == old(db.inventories) && db.items == old(db.items)
    ensures !fails ==>
      && r == Success(id in InventoryIds(old(db.inventories)))
      && db.inventories == RemoveInventoryRow(old(db.inventories), id)
      && db.items == CascadeItems(old(db.items), id)
    ensures db.schemaVersions == old(db.schemaVersions) && db.schemaLog == old(db.schemaLog)
  {
    if fails {
      return Failure(ExecutionFailed(EngineFailure));
    }
    var changes := CountWithId(db.inventories, id);
    DeleteCascadeConsistent(db.inventories, db.items, id);
    db.inventories, db.items := RemoveInventoryRow(db.inventories, id), CascadeItems(db.items, id);
    r := Success(changes > 0);
  }

  /** `inventoryExists(id)` */
  function InventoryExists(db: Database, id: string, fails: bool): (r: Result<bool, DbError>)
    reads db
    ensures r.Success? <==> !fails
    ensures r.Success? ==> (r.value <==> id in InventoryIds(db.inventories))
  {
    if fails then Failure(QueryFailed) else Success(CountWithId(db.inventories, id) > 0)
  }

  /** `getInventoryCount()`: `COUNT(*)`, which is the number of distinct
      inventories since ids are unique. */
  function GetInventoryCount(db: Database, fails: bool): (r: Result<nat, DbError>)
    reads db
    ensures r.Success? <==> !fails
    ensures r.Success? && UniqueInventoryIds(db.inventories) ==> r.value == |InventoryIds(db.inventories)|
  {
    if fails then Failure(QueryFailed)
    else
      DistinctIdsCount(db.inventories);
      Success(|db.inventories|)
  }

  lemma {:induction false} DistinctIdsCount(rows: seq<DbInventory>)
    ensures UniqueInventoryIds(rows) ==> |InventoryIds(rows)| == |rows|
  {
    if rows != [] && UniqueInventoryIds(rows) {
      var rest := rows[1..];
      DistinctIdsCount(rest);
      assert InventoryIds(rows) == {rows[0].id} + InventoryIds(rest) by {
        assert forall i :: 0 < i < |rows| ==> rows[i] == rest[i - 1];
      }
      assert rows[0].id !in InventoryIds(rest) by {
        forall i | 0 <= i < |rest| ensures rest[i].id != rows[0].id {
          assert rows[i + 1] == rest[i];
        }
      }
    }
  }

  /** `name LIKE '%q%' OR description LIKE '%q%'` on a mapped row (an absent
      description never matches). */
  predicate Matches(inv: Inventory, query: string) {
    Text.Contains(inv.name, query) || (inv.description.Some? && Text.Contains(inv.description.value, query))
  }

  /** `searchInventories(query)`: exactly the inventories whose name or
      description contains the query, in ascending name order. */
  function SearchInventories(db: Database, query: string, fails: bool): (r: Result<seq<Inventory>, DbError>)
    reads db
    ensures r.Success? <==> !fails
    ensures r.Success? ==> forall x :: x in r.value <==> x in MapInventories(db.inventories) && Matches(x, query)
    ensures r.Success? ==>
      multiset(r.value) == multiset(Sorting.Filter(MapInventories(db.inventories), (inv: Inventory) => Matches(inv, query)))
    ensures r.Success? ==> Sorting.SortedBy(r.value, NameLe)
  {
    if fails then Failure(QueryFailed)
    else
      var all := MapInventories(db.inventories);
      var found := Sorting.Select(all, (inv: Inventory) => Matches(inv, query), NameLe);
      NameOrder();
      Sorting.SelectSorted(all, (inv: Inventory) => Matches(inv, query), NameLe);
      assert forall x :: x in found ==> x in all && Matches(x, query) by {
        forall x | x in found ensures x in all && Matches(x, query) {
          var i :| 0 <= i < |found| && found[i] == x;
        }
      }
      assert forall x :: x in all && Matches(x, query) ==> x in found by {
        forall x | x in all && Matches(x, query) ensures x in found {
          var i :| 0 <= i < |all| && all[i] == x;
        }
      }
      Success(found)
  }

  /** Creating and reading back: the stored row maps to the returned value,
      except that an empty description comes back absent. */
  lemma CreatedInventoryReadBack(rows: seq<DbInventory>, id: string, data: CreateInventory, now: Timestamp)
    requires id !in InventoryIds(rows)
    ensures FindRow(rows + [NewInventoryRow(id, data, now)], id) == Some(NewInventoryRow(id, data, now))
    ensures MapDbToInventory(NewInventoryRow(id, data, now))
            == Inventory(id, data.name, Truthy(data.description), now, now)
    ensures data.description != Some("") ==>
      MapDbToInventory(NewInventoryRow(id, data, now)) == Inventory(id, data.name, data.description, now, now)
    ensures data.description == Some("") ==> MapDbToInventory(NewInventoryRow(id, data, now)).description == None
  {
    FindLast(rows, NewInventoryRow(id, data, now));
  }

  lemma {:induction false} FindLast(rows: seq<DbInventory>, row: DbInventory)
    requires row.id !in InventoryIds(rows)
    ensures FindRow(rows + [row], row.id) == Some(row)
  {
    if rows != [] {
      assert (rows + [row])[1..] == rows[1..] + [row];
      assert rows[0].id != row.id by {
        assert rows[0].id in InventoryIds(rows);
      }
      assert row.id !in InventoryIds(rows[1..]) by {
        forall i | 0 <= i < |rows[1..]| ensures rows[1..][i].id != row.id {
          assert rows[1..][i] == rows[i + 1];
          assert rows[i + 1].id in InventoryIds(rows);
        }
      }
      FindLast(rows[1..], row);
    }
  }

  /** What an update leaves alone: every other row, and in the updated row the
      id and `created_at`; a key not supplied keeps its value, and
      `updated_at` becomes `now`. */
  lemma UpdateFrame(rows: seq<DbInventory>, id: string, data: UpdateInventory, now: Timestamp, i: nat)
    requires i < |rows|
    ensures var r := PatchRows(rows, id, data, now)[i];
      && (rows[i].id != id ==> r == rows[i])
      && (rows[i].id == id ==>
            && r.id == id && r.createdAt == rows[i].createdAt && r.updatedAt == now
            && (data.name.None? ==> r.name == rows[i].name)
            && (data.name.Some? ==> r.name == data.name.value)
            && (data.description.None? ==> r.description == rows[i].description)
            && (data.description.Some? ==> r.description == Truthy(data.description)))
  {
  }
}
