/** Stored row shapes and migration records (lib/database/types.ts). A stored
    `NULL` is `None`; ISO-8601 timestamp strings are kept as the instants they denote. */
module DatabaseTypes {
  import opened Wrappers
  import opened Time

  /** A row of `inventories`. */
  datatype DbInventory = DbInventory(
    id: string,
    name: string,
    description: Option<string>,
    createdAt: Timestamp,
    updatedAt: Timestamp)

  /** A row of `items`. */
  datatype DbItem = DbItem(
    id: string,
    inventoryId: string,
    name: string,
    description: Option<string>,
    quantity: int,
    price: Option<real>,
    category: Option<string>,
    location: Option<string>,
    barcode: Option<string>,
    expirationDate: Option<Timestamp>,
    entryDate: Timestamp,
    updatedAt: Timestamp)

  /** A schema migration: its statements are opaque SQL texts; `down` may be missing. */
  datatype Migration = Migration(version: nat, name: string, up: seq<string>, down: Option<seq<string>>)

  /** `s || null` and `s || undefined` on an optional string: the empty string
      is falsy, so it becomes absent like a missing value. */
  function Truthy(v: Option<string>): Option<string> {
    if v.Some? && v.value != "" then v else None
  }

  /** `n || null` and `n || undefined` on an optional number: 0 is falsy. */
  function TruthyNumber(v: Option<real>): Option<real> {
    if v.Some? && v.value != 0.0 then v else None
  }
}
