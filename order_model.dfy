/**
 * The entities the order routes work on, as values: products with their
 * stock and owning staff member, cart lines, orders, and the error answers
 * of the order and cart handlers.
 */
module OrderModel {
  import opened Wrappers

  type ProductId = string
  type UserId = string
  /** Order ids are handed out by the store in increasing order. */
  type OrderId = nat

  /** A product: its price in cents, its stock count and the staff member it is assigned to. */
  datatype Product = Product(price: int, inStock: int, staffId: UserId)

  /** The product collection, by id. */
  type Catalog = map<ProductId, Product>

  /** One line of a customer's cart. */
  datatype CartLine = CartLine(productId: ProductId, quantity: int)

  /** One item of an order, as the customer sent it (a `price` field is dropped by the schema). */
  datatype OrderItem = OrderItem(productId: ProductId, quantity: int)

  /** An order; `status` holds either vocabulary used in the code. */
  datatype Order = Order(
    customerId: Option<UserId>,
    items: seq<OrderItem>,
    status: string,
    paymentCollected: bool,
    locked: bool)

  /** The schema's default status of a new order. */
  const Placed: string := "PLACED"

  /** The statuses the status-update route accepts. */
  const ValidStatuses: seq<string> := ["pending", "processing", "shipped", "delivered", "cancelled", "completed"]

  /** The statuses after which neither a status update nor an unlock is allowed. */
  function IsFinal(status: string): (b: bool)
    ensures b ==> status in ValidStatuses && status != Placed
  {
    status == "completed" || status == "delivered"
  }

  /** A freshly created order: schema defaults for status and payment, and locked. */
  function NewOrder(customer: Option<UserId>, items: seq<OrderItem>): (o: Order)
    ensures o.locked && o.status == Placed && !o.paymentCollected
    ensures o.items == items && o.customerId == customer
    ensures !IsFinal(o.status)
  {
    Order(customer, items, Placed, false, true)
  }

  /** Every item names a product of the catalog. */
  predicate AllKnown(catalog: Catalog, items: seq<OrderItem>) {
    forall j :: 0 <= j < |items| ==> items[j].productId in catalog
  }

  /** No product's stock count is negative. */
  ghost predicate StockNonNegative(catalog: Catalog) {
    forall p :: p in catalog ==> catalog[p].inStock >= 0
  }

  /** The error answers of the cart and order routes. */
  datatype OrderError =
    | ItemsRequired
    | ItemFieldsMissing
    | NonPositiveQuantity
    | ProductNotFound(productId: ProductId)
    | ExceedsStock(productId: ProductId, total: int, available: int)
    | InsufficientStock(productId: ProductId, requested: int, available: int)
    | NotAvailable(productId: ProductId)
    | CartNotFound
    | StatusRequired
    | InvalidStatus
    | NoProductsAssigned
    | OrderNotFound
    | AccessDenied
    | OrderLocked
    | FinalStatus
    | UnlockFinal
    | ServerError

  /** The HTTP status each error is answered with. */
  function StatusCode(e: OrderError): nat {
    match e
    case ProductNotFound(_) => 404
    case CartNotFound => 404
    case OrderNotFound => 404
    case NoProductsAssigned => 403
    case AccessDenied => 403
    case ServerError => 500
    case _ => 400
  }
}
