/**
 * The plain records of the inventory schema that the reference generator
 * touches or that operations carry. Identity is the primary key `id`, as in
 * the relational tables they stand for; foreign keys hold the referenced
 * record itself.
 */
module Records {
  import opened Wrappers

  /** A warehouse; `code` (unique among warehouses) heads its document references. */
  datatype Warehouse = Warehouse(id: nat, name: string, code: string, address: string)

  /** A location inside exactly one warehouse. */
  datatype Location = Location(id: nat, warehouse: Warehouse, name: string)

  datatype Product = Product(id: nat, name: string, sku: string, minStock: int, isActive: bool)

  /** One product line of an operation, with its (signed) quantity. */
  datatype OperationLine = OperationLine(id: nat, operationId: nat, product: Product, quantity: int)

  /** Current quantity of a product at a location; a new row starts at zero. */
  datatype StockLevel = StockLevel(id: nat, product: Product, location: Location, quantity: int := 0)

  /** One audited movement: positive quantity_change is incoming, negative outgoing. */
  datatype StockLedgerEntry = StockLedgerEntry(
    id: nat,
    operationId: nat,
    lineId: nat,
    product: Product,
    source: Option<Location>,
    destination: Option<Location>,
    quantityChange: int,
    createdAt: int)

  /**
   * A stored inventory operation (receipt, delivery, internal transfer or
   * adjustment) as far as document numbering sees it: its type and status
   * strings, its optional source and destination locations, the year of its
   * creation timestamp and its document reference.
   */
  datatype OperationRecord = OperationRecord(
    id: nat,
    opType: string,
    status: string,
    source: Option<Location>,
    destination: Option<Location>,
    createdYear: int,
    reference: string)
}
