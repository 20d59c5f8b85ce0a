/** The database the repositories and the migration runner share
    (lib/database/connection.ts). The engine is abstract: a table is the
    sequence of its rows in storage order, and every call may fail, which the
    callers receive as a flag. Foreign keys are enforced, as the connection
    turns them on when it opens. */
module Connection {
  import opened DatabaseTypes
  import Sorting

  /** Why the engine refused a statement. */
  datatype Cause = EngineFailure | UniqueConstraint | ForeignKeyConstraint

  /** `DatabaseError`: `executeSql` wraps failures of writes, `getFirstAsync`
      and `getAllAsync` those of queries. */
  datatype DbError = ExecutionFailed(cause: Cause) | QueryFailed

  function InventoryIds(rows: seq<DbInventory>): set<string> {
    set i | 0 <= i < |rows| :: rows[i].id
  }

  function ItemIds(rows: seq<DbItem>): set<string> {
    set i | 0 <= i < |rows| :: rows[i].id
  }

  /** `id TEXT PRIMARY KEY` on `inventories`. */
  predicate UniqueInventoryIds(rows: seq<DbInventory>) {
    forall i, j :: 0 <= i < j < |rows| ==> rows[i].id != rows[j].id
  }

  /** `id TEXT PRIMARY KEY` on `items`. */
  predicate UniqueItemIds(rows: seq<DbItem>) {
    forall i, j :: 0 <= i < j < |rows| ==> rows[i].id != rows[j].id
  }

  /** `FOREIGN KEY (inventory_id) REFERENCES inventories (id)`. */
  predicate ReferencesHold(inventories: seq<DbInventory>, items: seq<DbItem>) {
    forall j :: 0 <= j < |items| ==> items[j].inventoryId in InventoryIds(inventories)
  }

  predicate Consistent(inventories: seq<DbInventory>, items: seq<DbItem>) {
    UniqueInventoryIds(inventories) && UniqueItemIds(items) && ReferencesHold(inventories, items)
  }

  /** A `WHERE` that removes rows keeps the primary keys unique. */
  lemma {:induction false} FilterKeepsUniqueInventories(rows: seq<DbInventory>, p: DbInventory -> bool)
    requires UniqueInventoryIds(rows)
    ensures UniqueInventoryIds(Sorting.Filter(rows, p))
  {
    if rows != [] {
      var rest := Sorting.Filter(rows[1..], p);
      FilterKeepsUniqueInventories(rows[1..], p);
      forall j | 0 <= j < |rest| ensures rest[j].id != rows[0].id {
        var k :| 0 <= k < |rows[1..]| && rows[1..][k] == rest[j];
        assert rows[k + 1] == rest[j];
      }
    }
  }

  lemma {:induction false} FilterKeepsUniqueItems(rows: seq<DbItem>, p: DbItem -> bool)
    requires UniqueItemIds(rows)
    ensures UniqueItemIds(Sorting.Filter(rows, p))
  {
    if rows != [] {
      var rest := Sorting.Filter(rows[1..], p);
      FilterKeepsUniqueItems(rows[1..], p);
      forall j | 0 <= j < |rest| ensures rest[j].id != rows[0].id {
        var k :| 0 <= k < |rows[1..]| && rows[1..][k] == rest[j];
        assert rows[k + 1] == rest[j];
      }
    }
  }

  class Database {
    var inventories: seq<DbInventory>
    var items: seq<DbItem>
    /** The `version` column of `schema_versions`. */
    var schemaVersions: seq<nat>
    /** The migration statements committed so far, in order; their effect on the schema is opaque. */
    var schemaLog: seq<string>

    /** The constraints the engine enforces on every committed state. */
    ghost predicate Valid()
      reads this
    {
      Consistent(inventories, items)
    }

    /** A fresh, empty database file. */
    constructor ()
      ensures Valid()
      ensures inventories == [] && items == [] && schemaVersions == [] && schemaLog == []
    {
      inventories, items, schemaVersions, schemaLog := [], [], [], [];
    }
  }
}
