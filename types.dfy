/** Domain records of the inventory store: products, stock moves and their lines,
    the three enumerations, and the KPI record the dashboard reads. */
module Types {

  datatype Option<+T> = None | Some(value: T)

  /** The kind of a stock operation. `Label` is the enum's string value, which is
      what the operations page compares its type filter against. */
  datatype OperationType = Receipt | Delivery | Internal | Adjustment
  {
    function Label(): string {
      match this
      case Receipt => "Incoming Receipt"
      case Delivery => "Delivery Order"
      case Internal => "Internal Transfer"
      case Adjustment => "Inventory Adjustment"
    }
  }

  /** The state of a stock move; `Label` is the string shown and searched in the ledger. */
  datatype OperationStatus = Draft | Waiting | Ready | Done | Cancelled
  {
    function Label(): string {
      match this
      case Draft => "Draft"
      case Waiting => "Waiting"
      case Ready => "Ready"
      case Done => "Done"
      case Cancelled => "Cancelled"
    }
  }

  datatype TrackingStrategy = NoTracking | ByLots | BySerial

  /** A catalogue entry. `stockLevel` is the on-hand total; `locationStock` is the
      per-location breakdown (an absent breakdown reads as the empty map everywhere
      the store uses it, so it is the empty map here). */
  datatype Product = Product(
    id: string,
    name: string,
    sku: string,
    category: string,
    uom: string,
    stockLevel: int,
    locationStock: map<string, int>,
    cost: real,
    location: string,
    minStock: int,
    tracking: TrackingStrategy)

  datatype StockMoveLine = StockMoveLine(
    id: string,
    productId: string,
    productName: string,
    quantity: int,
    lotNumber: Option<string>)

  datatype StockMove = StockMove(
    id: string,
    reference: string,
    opType: OperationType,
    status: OperationStatus,
    contact: Option<string>,
    scheduleDate: Option<string>,
    sourceLocation: string,
    destLocation: string,
    date: string,
    lines: seq<StockMoveLine>)

  datatype KpiMetrics = KpiMetrics(
    totalProducts: nat,
    lowStockItems: nat,
    receiptsLate: nat,
    receiptsToReceive: nat,
    deliveriesLate: nat,
    deliveriesToDeliver: nat,
    deliveriesWaiting: nat)

  /** `opt || ''` for an optional text field. */
  function OrEmpty(s: Option<string>): string {
    match s
    case None => ""
    case Some(v) => v
  }
}
