/**
 * The order routes as one in-memory store: each handler is one sequential
 * step that runs its guards and then updates the products, carts or orders
 * in place. The rules the handlers follow are the functions of CartRules,
 * Checkout and StaffScope; every method here is proved to do what they say.
 */
module OrderStore {
  import opened Wrappers
  import opened OrderModel
  import CartRules
  import Checkout
  import StaffScope

  /** A customer's stored cart lines; a customer without a cart starts from none. */
  function CartOf(carts: map<UserId, seq<CartLine>>, user: UserId): (r: seq<CartLine>)
    ensures user in carts ==> r == carts[user]
    ensures user !in carts ==> r == []
    ensures (forall u :: u in carts ==> CartRules.WellFormedCart(carts[u])) ==> CartRules.WellFormedCart(r)
  {
    if user in carts then carts[user] else []
  }

  class Store {
    var products: Catalog
    var carts: map<UserId, seq<CartLine>>
    var orders: map<OrderId, Order>
    /** The id the next created order receives. */
    var nextOrderId: OrderId

    /** No negative stock, every cart with one line per product, every order id already handed out. */
    ghost predicate Valid()
      reads this
    {
      && StockNonNegative(products)
      && (forall u :: u in carts ==> CartRules.WellFormedCart(carts[u]))
      && (forall id :: id in orders ==> id < nextOrderId)
    }

    constructor(catalog: Catalog)
      requires StockNonNegative(catalog)
      ensures Valid()
      ensures products == catalog && carts == map[] && orders == map[] && nextOrderId == 0
    {
      products := catalog;
      carts := map[];
      orders := map[];
      nextOrderId := 0;
    }

    /**
     * POST /cart/add-to-cart: the items are merged one by one into a working
     * copy of the customer's cart, and the cart is stored only when every
     * item passed; a refused request leaves the stored cart as it was.
     */
    method AddToCart(user: UserId, items: Option<seq<CartRules.RequestItem>>)
      returns (r: Result<seq<CartLine>, OrderError>)
      requires Valid()
      modifies this
      ensures Valid()
      ensures r == CartRules.AddToCart(CartOf(old(carts), user), items, old(products))
      ensures carts == if r.Success? then old(carts)[user := r.value] else old(carts)
      ensures products == old(products) && orders == old(orders) && nextOrderId == old(nextOrderId)
    {
      if items.None? || |items.value| == 0 {
        return Failure(ItemsRequired);
      }
      var xs := items.value;
      var lines := CartOf(carts, user);
      ghost var start := lines;
      var i := 0;
      while i < |xs|
        invariant 0 <= i <= |xs|
        invariant CartRules.WellFormedCart(lines)
        invariant CartRules.AddItems(lines, xs[i..], products) == CartRules.AddItems(start, xs, products)
        invariant carts == old(carts) && products == old(products)
        invariant orders == old(orders) && nextOrderId == old(nextOrderId)
      {
        var it := xs[i];
        assert xs[i..][0] == it && xs[i..][1..] == xs[i + 1..];
        if !CartRules.HasFields(it) {
          return Failure(ItemFieldsMissing);
        }
        var pid, quantity := it.productId.value, it.quantity.value;
        if quantity <= 0 {
          return Failure(NonPositiveQuantity);
        }
        if pid !in products {
          return Failure(ProductNotFound(pid));
        }
        var product := products[pid];
        var k := CartRules.FindLine(lines, pid);
        if k > -1 {
          var newQuantity := lines[k].quantity + quantity;
          if product.inStock < newQuantity {
            return Failure(ExceedsStock(pid, newQuantity, product.inStock));
          }
          CartRules.AddItemKeepsWellFormed(lines, it, products);
          lines := lines[k := CartLine(pid, newQuantity)];
        } else {
          if product.inStock < quantity {
            return Failure(InsufficientStock(pid, quantity, product.inStock));
          }
          CartRules.AddItemKeepsWellFormed(lines, it, products);
          lines := lines + [CartLine(pid, quantity)];
        }
        i := i + 1;
      }
      assert xs[i..] == [];
      carts := carts[user := lines];
      r := Success(lines);
    }

    /** DELETE /cart/remove/:productId: 404 without a cart, otherwise every line of the product dropped. */
    method RemoveFromCart(user: UserId, pid: ProductId) returns (r: Result<seq<CartLine>, OrderError>)
      requires Valid()
      modifies this
      ensures Valid()
      ensures user !in old(carts) ==> r == Failure(CartNotFound) && StatusCode(r.error) == 404 && carts == old(carts)
      ensures user in old(carts) ==>
                r == Success(CartRules.RemoveProduct(old(carts)[user], pid)) && carts == old(carts)[user := r.value]
      ensures products == old(products) && orders == old(orders) && nextOrderId == old(nextOrderId)
    {
      if user !in carts {
        return Failure(CartNotFound);
      }
      CartRules.RemoveProductKeepsWellFormed(carts[user], pid);
      var lines := CartRules.RemoveProduct(carts[user], pid);
      carts := carts[user := lines];
      r := Success(lines);
    }

    /** DELETE /cart/clear: the customer's cart is deleted, whether or not there was one. */
    method ClearCart(user: UserId)
      requires Valid()
      modifies this
      ensures Valid()
      ensures carts == old(carts) - {user}
      ensures products == old(products) && orders == old(orders) && nextOrderId == old(nextOrderId)
    {
      carts := carts - {user};
    }

    /**
     * POST /create: each item is checked against the product's current
     * stock and debited at once; the first item that fails answers 400 with
     * the earlier debits kept and no order created. When all pass, a new
     * locked order with the schema's default status is stored under a fresh
     * id. The cart is left as it is.
     */
    method CreateOrder(customer: UserId, items: Option<seq<OrderItem>>) returns (r: Result<OrderId, OrderError>)
      requires Valid()
      modifies this
      ensures Valid()
      ensures items.None? || items.value == [] ==>
                r == Failure(ItemsRequired) && products == old(products)
      ensures items.Some? && items.value != [] ==>
                var outcome := Checkout.ReserveAll(old(products), items.value);
                && products == outcome.stock
                && (r.Success? <==> outcome.Reserved?)
                && (r.Failure? ==> r.error == NotAvailable(items.value[outcome.at].productId))
      ensures r.Success? ==>
                && r.value == old(nextOrderId) && r.value !in old(orders)
                && orders == old(orders)[r.value := NewOrder(Some(customer), items.value)]
                && nextOrderId == old(nextOrderId) + 1
      ensures r.Failure? ==> orders == old(orders) && nextOrderId == old(nextOrderId) && StatusCode(r.error) == 400
      ensures carts == old(carts)
    {
      if items.None? || |items.value| == 0 {
        return Failure(ItemsRequired);
      }
      var xs := items.value;
      var i := 0;
      while i < |xs|
        invariant 0 <= i <= |xs|
        invariant StockNonNegative(products)
        invariant Checkout.Offset(Checkout.ReserveAll(products, xs[i..]), i) == Checkout.ReserveAll(old(products), xs)
        invariant carts == old(carts) && orders == old(orders) && nextOrderId == old(nextOrderId)
      {
        var it := xs[i];
        Checkout.ReserveStep(products, xs, i);
        if it.productId !in products || products[it.productId].inStock < it.quantity {
          return Failure(NotAvailable(it.productId));
        }
        Checkout.DebitKeepsStockNonNegative(products, it);
        products := Checkout.Debit(products, it);
        i := i + 1;
      }
      assert xs[i..] == [];
      r := Success(nextOrderId);
      orders := orders[nextOrderId := NewOrder(Some(customer), xs)];
      nextOrderId := nextOrderId + 1;
    }

    /** POST /staff/create: the order is stored as sent, with the schema defaults, and no stock is touched. */
    method StaffCreateOrder(customer: Option<UserId>, items: Option<seq<OrderItem>>) returns (id: OrderId)
      requires Valid()
      modifies this
      ensures Valid()
      ensures id == old(nextOrderId) && id !in old(orders)
      ensures orders == old(orders)[id := NewOrder(customer, if items.Some? then items.value else [])]
      ensures nextOrderId == old(nextOrderId) + 1
      ensures products == old(products) && carts == old(carts)
    {
      id := nextOrderId;
      orders := orders[id := NewOrder(customer, if items.Some? then items.value else [])];
      nextOrderId := nextOrderId + 1;
    }

    /** PATCH /staff/updateStatus/:id: the guarded status update, written back only when it succeeds. */
    method UpdateStatus(staff: UserId, id: OrderId, status: Option<string>) returns (r: Result<Order, OrderError>)
      requires Valid()
      modifies this
      ensures Valid()
      ensures r == StaffScope.StatusUpdate(old(products), old(orders), staff, id, status)
      ensures orders == if r.Success? then old(orders)[id := r.value] else old(orders)
      ensures products == old(products) && carts == old(carts) && nextOrderId == old(nextOrderId)
    {
      r := StaffScope.StatusUpdate(products, orders, staff, id, status);
      if r.Success? {
        orders := orders[id := r.value];
      }
    }

    /** PATCH /staff/:id/lock: the ownership guard, then the order locked. */
    method LockOrder(staff: UserId, id: OrderId) returns (r: Result<Order, OrderError>)
      requires Valid()
      modifies this
      ensures Valid()
      ensures r == StaffScope.LockUpdate(old(products), old(orders), staff, id)
      ensures orders == if r.Success? then old(orders)[id := r.value] else old(orders)
      ensures products == old(products) && carts == old(carts) && nextOrderId == old(nextOrderId)
    {
      r := StaffScope.LockUpdate(products, orders, staff, id);
      if r.Success? {
        orders := orders[id := r.value];
      }
    }

    /** PATCH /staff/:id/unlock: the ownership guard and the final-status guard, then the order unlocked. */
    method UnlockOrder(staff: UserId, id: OrderId) returns (r: Result<Order, OrderError>)
      requires Valid()
      modifies this
      ensures Valid()
      ensures r == StaffScope.UnlockUpdate(old(products), old(orders), staff, id)
      ensures orders == if r.Success? then old(orders)[id := r.value] else old(orders)
      ensures products == old(products) && carts == old(carts) && nextOrderId == old(nextOrderId)
    {
      r := StaffScope.UnlockUpdate(products, orders, staff, id);
      if r.Success? {
        orders := orders[id := r.value];
      }
    }
  }
}
