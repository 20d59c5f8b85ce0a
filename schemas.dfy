/** The validation layer (lib/schemas.ts): the entity shapes and, for each
    schema, a validator from an input object to the parsed value or the list
    of issues. Zod's rules are written out: strings are trimmed before their
    length is checked, numbers must not be negative, optional keys may be
    absent. The create shapes omit the server-assigned keys and the update
    shapes make every create key optional. */
module Schemas {
  import opened Wrappers
  import opened Time
  import Text

  datatype Inventory = Inventory(
    id: string,
    name: string,
    description: Option<string>,
    createdAt: Timestamp,
    updatedAt: Timestamp)

  datatype Item = Item(
    id: string,
    inventoryId: string,
    name: string,
    description: Option<string>,
    quantity: int,
    price: Option<real>,
    category: Option<string>,
    location: Option<string>,
    barcode: Option<string>,
    expirationDate: Option<Timestamp>,
    entryDate: Timestamp,
    updatedAt: Timestamp)

  /** `CreateInventory`: `Inventory` without id, createdAt and updatedAt. */
  datatype CreateInventory = CreateInventory(name: string, description: Option<string>)

  /** `CreateItem`: `Item` without id, entryDate and updatedAt. */
  datatype CreateItem = CreateItem(
    inventoryId: string,
    name: string,
    description: Option<string>,
    quantity: int,
    price: Option<real>,
    category: Option<string>,
    location: Option<string>,
    barcode: Option<string>,
    expirationDate: Option<Timestamp>)

  /** `UpdateInventory`: every key of `CreateInventory`, optional. */
  datatype UpdateInventory = UpdateInventory(name: Option<string>, description: Option<string>)

  /** `UpdateItem`: every key of `CreateItem`, optional. */
  datatype UpdateItem = UpdateItem(
    inventoryId: Option<string>,
    name: Option<string>,
    description: Option<string>,
    quantity: Option<int>,
    price: Option<real>,
    category: Option<string>,
    location: Option<string>,
    barcode: Option<string>,
    expirationDate: Option<Timestamp>)

  /** An object handed to an inventory schema: every key absent or holding a
      value of the declared type. Unknown keys are stripped, so they are not kept. */
  datatype InventoryInput = InventoryInput(
    id: Option<string>,
    name: Option<string>,
    description: Option<string>,
    createdAt: Option<Timestamp>,
    updatedAt: Option<Timestamp>)

  /** An object handed to an item schema. */
  datatype ItemInput = ItemInput(
    id: Option<string>,
    inventoryId: Option<string>,
    name: Option<string>,
    description: Option<string>,
    quantity: Option<int>,
    price: Option<real>,
    category: Option<string>,
    location: Option<string>,
    barcode: Option<string>,
    expirationDate: Option<Timestamp>,
    entryDate: Option<Timestamp>,
    updatedAt: Option<Timestamp>)

  /** A validation failure: the key and its message. */
  datatype Issue = Issue(path: string, message: string)

  const REQUIRED := "Required"

  // The field rules. `required` is false in the partial (update) shapes, where
  // an absent key is accepted and a present one obeys the same rule.

  /** `z.string().trim().min(1, message)` */
  function NonBlankIssues(path: string, v: Option<string>, message: string, required: bool): seq<Issue> {
    match v
    case None => if required then [Issue(path, REQUIRED)] else []
    case Some(s) => if |Text.Trim(s)| < 1 then [Issue(path, message)] else []
  }

  /** `z.string().min(1, message)`, without trimming (the ids). */
  function NonEmptyIssues(path: string, v: Option<string>, message: string): seq<Issue> {
    match v
    case None => [Issue(path, REQUIRED)]
    case Some(s) => if |s| < 1 then [Issue(path, message)] else []
  }

  /** `z.number().min(0, message)` on an integer key. */
  function NonNegativeIssues(path: string, v: Option<int>, message: string, required: bool): seq<Issue> {
    match v
    case None => if required then [Issue(path, REQUIRED)] else []
    case Some(n) => if n < 0 then [Issue(path, message)] else []
  }

  /** `z.number().min(0, message).optional()` on the price. */
  function PriceIssues(v: Option<real>): seq<Issue> {
    match v
    case None => []
    case Some(p) => if p < 0.0 then [Issue("price", "Price cannot be negative")] else []
  }

  /** `z.date()`: a required date key. */
  function DateIssues(path: string, v: Option<Timestamp>): seq<Issue> {
    if v.None? then [Issue(path, REQUIRED)] else []
  }

  /** `z.string().trim().optional()`: the trimmed value when present. */
  function TrimOpt(v: Option<string>): Option<string> {
    match v
    case None => None
    case Some(s) => Some(Text.Trim(s))
  }

  function InventoryNameIssues(v: Option<string>, required: bool): seq<Issue> {
    NonBlankIssues("name", v, "Inventory name is required", required)
  }

  function ItemFieldIssues(input: ItemInput, required: bool): seq<Issue> {
    NonBlankIssues("inventoryId", input.inventoryId, "Inventory ID is required", required)
    + NonBlankIssues("name", input.name, "Item name is required", required)
    + NonNegativeIssues("quantity", input.quantity, "Quantity cannot be negative", required)
    + PriceIssues(input.price)
  }

  /** A string that is present and not blank. */
  predicate NonBlank(v: Option<string>) {
    v.Some? && !Text.AllWhitespace(v.value)
  }

  /** `InventorySchema.safeParse(input)` */
  function ValidateInventory(input: InventoryInput): (r: Result<Inventory, seq<Issue>>)
    ensures r.Success? <==>
      && input.id.Some? && input.id.value != []
      && NonBlank(input.name) && input.createdAt.Some? && input.updatedAt.Some?
    ensures r.Success? ==>
      && r.value.id == input.id.value
      && r.value.name == Text.Trim(input.name.value) && r.value.name != []
      && r.value.description == TrimOpt(input.description)
      && r.value.createdAt == input.createdAt.value && r.value.updatedAt == input.updatedAt.value
    ensures r.Failure? ==> r.error != []
  {
    var issues := NonEmptyIssues("id", input.id, "ID is required")
      + InventoryNameIssues(input.name, true)
      + DateIssues("createdAt", input.createdAt) + DateIssues("updatedAt", input.updatedAt);
    if issues == [] then
      Success(Inventory(input.id.value, Text.Trim(input.name.value), TrimOpt(input.description),
                        input.createdAt.value, input.updatedAt.value))
    else Failure(issues)
  }

  /** `CreateInventorySchema.safeParse(input)`: a missing or blank name is the
      only way to fail; the server-assigned keys are not read. */
  function ValidateCreateInventory(input: InventoryInput): (r: Result<CreateInventory, seq<Issue>>)
    ensures r.Success? <==> NonBlank(input.name)
    ensures r.Success? ==>
      && r.value.name == Text.Trim(input.name.value) && r.value.name != []
      && r.value.description == TrimOpt(input.description)
    ensures r.Failure? ==> r.error != []
  {
    var issues := InventoryNameIssues(input.name, true);
    if issues == [] then Success(CreateInventory(Text.Trim(input.name.value), TrimOpt(input.description)))
    else Failure(issues)
  }

  /** `UpdateInventorySchema.safeParse(input)`: every key may be absent; a
      present name must not be blank. */
  function ValidateUpdateInventory(input: InventoryInput): (r: Result<UpdateInventory, seq<Issue>>)
    ensures r.Success? <==> input.name.None? || NonBlank(input.name)
    ensures r.Success? ==> r.value == UpdateInventory(TrimOpt(input.name), TrimOpt(input.description))
    ensures r.Failure? ==> r.error != []
  {
    var issues := InventoryNameIssues(input.name, false);
    if issues == [] then Success(UpdateInventory(TrimOpt(input.name), TrimOpt(input.description)))
    else Failure(issues)
  }

  /** `ItemSchema.safeParse(input)` */
  function ValidateItem(input: ItemInput): (r: Result<Item, seq<Issue>>)
    ensures r.Success? <==>
      && input.id.Some? && input.id.value != []
      && NonBlank(input.inventoryId) && NonBlank(input.name)
      && input.quantity.Some? && input.quantity.value >= 0
      && (input.price.None? || input.price.value >= 0.0)
      && input.entryDate.Some? && input.updatedAt.Some?
    ensures r.Success? ==>
      && r.value.id == input.id.value
      && r.value.inventoryId == Text.Trim(input.inventoryId.value) && r.value.inventoryId != []
      && r.value.name == Text.Trim(input.name.value) && r.value.name != []
      && r.value.description == TrimOpt(input.description)
      && r.value.quantity == input.quantity.value && r.value.price == input.price
      && r.value.category == TrimOpt(input.category) && r.value.location == TrimOpt(input.location)
      && r.value.barcode == TrimOpt(input.barcode) && r.value.expirationDate == input.expirationDate
      && r.value.entryDate == input.entryDate.value && r.value.updatedAt == input.updatedAt.value
    ensures r.Failure? ==> r.error != []
  {
    var issues := NonEmptyIssues("id", input.id, "ID is required")
      + ItemFieldIssues(input, true)
      + DateIssues("entryDate", input.entryDate) + DateIssues("updatedAt", input.updatedAt);
    if issues == [] then
      Success(Item(input.id.value, Text.Trim(input.inventoryId.value), Text.Trim(input.name.value),
                   TrimOpt(input.description), input.quantity.value, input.price,
                   TrimOpt(input.category), TrimOpt(input.location), TrimOpt(input.barcode),
                   input.expirationDate, input.entryDate.value, input.updatedAt.value))
    else Failure(issues)
  }

  /** `CreateItemSchema.safeParse(input)` */
  function ValidateCreateItem(input: ItemInput): (r: Result<CreateItem, seq<Issue>>)
    ensures r.Success? <==>
      && NonBlank(input.inventoryId) && NonBlank(input.name)
      && input.quantity.Some? && input.quantity.value >= 0
      && (input.price.None? || input.price.value >= 0.0)
    ensures r.Success? ==>
      && r.value.inventoryId == Text.Trim(input.inventoryId.value) && r.value.inventoryId != []
      && r.value.name == Text.Trim(input.name.value) && r.value.name != []
      && r.value.quantity == input.quantity.value && r.value.price == input.price
      && r.value.description == TrimOpt(input.description)
      && r.value.category == TrimOpt(input.category)
      && r.value.location == TrimOpt(input.location)
      && r.value.barcode == TrimOpt(input.barcode)
      && r.value.expirationDate == input.expirationDate
    ensures r.Failure? ==> r.error != []
  {
    var issues := ItemFieldIssues(input, true);
    if issues == [] then
      Success(CreateItem(Text.Trim(input.inventoryId.value), Text.Trim(input.name.value),
                         TrimOpt(input.description), input.quantity.value, input.price,
                         TrimOpt(input.category), TrimOpt(input.location), TrimOpt(input.barcode),
                         input.expirationDate))
    else Failure(issues)
  }

  /** `UpdateItemSchema.safeParse(input)` */
  function ValidateUpdateItem(input: ItemInput): (r: Result<UpdateItem, seq<Issue>>)
    ensures r.Success? <==>
      && (input.inventoryId.None? || NonBlank(input.inventoryId))
      && (input.name.None? || NonBlank(input.name))
      && (input.quantity.None? || input.quantity.value >= 0)
      && (input.price.None? || input.price.value >= 0.0)
    ensures r.Success? ==>
      r.value == UpdateItem(TrimOpt(input.inventoryId), TrimOpt(input.name), TrimOpt(input.description),
                            input.quantity, input.price, TrimOpt(input.category),
                            TrimOpt(input.location), TrimOpt(input.barcode), input.expirationDate)
    ensures r.Failure? ==> r.error != []
  {
    var issues := ItemFieldIssues(input, false);
    if issues == [] then
      Success(UpdateItem(TrimOpt(input.inventoryId), TrimOpt(input.name), TrimOpt(input.description),
                         input.quantity, input.price, TrimOpt(input.category),
                         TrimOpt(input.location), TrimOpt(input.barcode), input.expirationDate))
    else Failure(issues)
  }

  /** The create schemas omit the server-assigned keys: whatever those keys
      hold, the outcome is the same. */
  lemma CreateOmitsServerKeys(inv: InventoryInput, item: ItemInput, id: Option<string>,
                              created: Option<Timestamp>, updated: Option<Timestamp>)
    ensures ValidateCreateInventory(inv) ==
            ValidateCreateInventory(inv.(id := id, createdAt := created, updatedAt := updated))
    ensures ValidateCreateItem(item) ==
            ValidateCreateItem(item.(id := id, entryDate := created, updatedAt := updated))
  {
  }

  /** The full schema is the create schema plus a non-empty id and both dates. */
  lemma FullSchemaExtendsCreate(input: InventoryInput)
    ensures ValidateInventory(input).Success? <==>
      && ValidateCreateInventory(input).Success?
      && input.id.Some? && input.id.value != [] && input.createdAt.Some? && input.updatedAt.Some?
    ensures ValidateInventory(input).Success? ==>
      && ValidateInventory(input).value.name == ValidateCreateInventory(input).value.name
      && ValidateInventory(input).value.description == ValidateCreateInventory(input).value.description
  {
  }

  /** The update schemas accept the empty payload. */
  lemma UpdateAcceptsEmpty()
    ensures ValidateUpdateInventory(InventoryInput(None, None, None, None, None))
            == Success(UpdateInventory(None, None))
    ensures ValidateUpdateItem(ItemInput(None, None, None, None, None, None, None, None, None, None, None, None))
            == Success(UpdateItem(None, None, None, None, None, None, None, None, None))
  {
  }

  /** With every create key present, the update schema accepts exactly what
      the create schema accepts: the partial shape keeps the rules. */
  lemma UpdateKeepsCreateRules(inv: InventoryInput, item: ItemInput)
    requires inv.name.Some?
    requires item.inventoryId.Some? && item.name.Some? && item.quantity.Some?
    ensures ValidateUpdateInventory(inv).Success? <==> ValidateCreateInventory(inv).Success?
    ensures ValidateUpdateItem(item).Success? <==> ValidateCreateItem(item).Success?
  {
  }

  lemma TrimOptIdempotent(v: Option<string>)
    ensures TrimOpt(TrimOpt(v)) == TrimOpt(v)
  {
    if v.Some? {
      Text.TrimIdempotent(v.value);
    }
  }

  /** Validating a validated inventory again gives it back unchanged, because
      trimming is idempotent. */
  lemma CreateInventoryRevalidates(input: InventoryInput)
    requires ValidateCreateInventory(input).Success?
    ensures var c := ValidateCreateInventory(input).value;
      ValidateCreateInventory(InventoryInput(None, Some(c.name), c.description, None, None)) == Success(c)
  {
    var c := ValidateCreateInventory(input).value;
    Text.TrimIdempotent(input.name.value);
    TrimOptIdempotent(input.description);
    assert Text.Trim(c.name) == c.name;
  }

  /** Validating a validated item again gives it back unchanged. */
  lemma CreateItemRevalidates(input: ItemInput)
    requires ValidateCreateItem(input).Success?
    ensures var c := ValidateCreateItem(input).value;
      ValidateCreateItem(ItemInput(None, Some(c.inventoryId), Some(c.name), c.description,
                                   Some(c.quantity), c.price, c.category, c.location, c.barcode,
                                   c.expirationDate, None, None)) == Success(c)
  {
    Text.TrimIdempotent(input.inventoryId.value);
    Text.TrimIdempotent(input.name.value);
    TrimOptIdempotent(input.description);
    TrimOptIdempotent(input.category);
    TrimOptIdempotent(input.location);
    TrimOptIdempotent(input.barcode);
  }
}
