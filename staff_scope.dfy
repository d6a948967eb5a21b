/**
 * What a staff member sees of the orders and may do to them. A staff
 * member's scope is the set of products assigned to them; an order is in
 * scope when one of its items names such a product. The listing and the
 * detail view are read-only; status update, lock and unlock are guarded
 * updates of one order, given here as functions from the stored orders to
 * the updated order or the error answer.
 */
module StaffScope {
  import opened Wrappers
  import opened OrderModel

  /** `Product.find({ staffId })`: the ids of the products assigned to the staff member. */
  function OwnedProducts(catalog: Catalog, staff: UserId): (owned: set<ProductId>)
    ensures forall p :: p in owned <==> p in catalog && catalog[p].staffId == staff
  {
    set p | p in catalog && catalog[p].staffId == staff
  }

  /** A product lies in the scope of the staff member it is assigned to, and of no one else. */
  lemma ProductInOwnScopeOnly(catalog: Catalog, p: ProductId, staff: UserId)
    requires p in catalog
    ensures p in OwnedProducts(catalog, staff) <==> staff == catalog[p].staffId
  {
  }

  /** Some item of the order names one of the products. */
  predicate Touches(items: seq<OrderItem>, owned: set<ProductId>) {
    exists i :: 0 <= i < |items| && items[i].productId in owned
  }

  // ---------------------------------------------------------------------------
  // Listing

  /**
   * The staff listing: nothing when the staff member has no products,
   * otherwise exactly the stored orders with an item whose product is
   * assigned to them, unchanged.
   */
  function StaffOrders(catalog: Catalog, orders: map<OrderId, Order>, staff: UserId): (r: map<OrderId, Order>)
    ensures OwnedProducts(catalog, staff) == {} ==> r == map[]
    ensures forall id :: id in r ==> id in orders && r[id] == orders[id]
    ensures forall id :: id in orders ==>
              (id in r <==> exists i :: 0 <= i < |orders[id].items| &&
                              orders[id].items[i].productId in catalog &&
                              catalog[orders[id].items[i].productId].staffId == staff)
  {
    var owned := OwnedProducts(catalog, staff);
    if owned == {} then map[]
    else map id | id in orders && Touches(orders[id].items, owned) :: orders[id]
  }

  // ---------------------------------------------------------------------------
  // Items and totals

  /** `order.items.filter(item => productIds.includes(...))`. */
  function FilterOwned(items: seq<OrderItem>, owned: set<ProductId>): (r: seq<OrderItem>)
    ensures forall i :: 0 <= i < |r| ==> r[i].productId in owned
    ensures |r| <= |items|
    decreases |items|
  {
    if items == [] then []
    else if items[0].productId in owned then [items[0]] + FilterOwned(items[1..], owned)
    else FilterOwned(items[1..], owned)
  }

  /**
   * The staff items are the owned items of the order in their original
   * order, each as often as it occurs there.
   */
  lemma {:induction false} FilterOwnedIsOwnedSubsequence(items: seq<OrderItem>, owned: set<ProductId>)
    ensures IsSubsequence(FilterOwned(items, owned), items)
    ensures forall x: OrderItem :: x.productId in owned ==> multiset(FilterOwned(items, owned))[x] == multiset(items)[x]
    ensures forall x: OrderItem :: x.productId !in owned ==> multiset(FilterOwned(items, owned))[x] == 0
    decreases |items|
  {
    if items != [] {
      FilterOwnedIsOwnedSubsequence(items[1..], owned);
      assert items == [items[0]] + items[1..];
      var rest := FilterOwned(items[1..], owned);
      if items[0].productId in owned {
        assert ([items[0]] + rest)[1..] == rest;
      }
    }
  }

  /** There are staff items exactly when the order is in scope. */
  lemma {:induction false} FilterOwnedNonEmptyIffTouches(items: seq<OrderItem>, owned: set<ProductId>)
    ensures |FilterOwned(items, owned)| > 0 <==> Touches(items, owned)
    decreases |items|
  {
    if items != [] {
      FilterOwnedNonEmptyIffTouches(items[1..], owned);
      if items[0].productId !in owned && Touches(items, owned) {
        var i :| 0 <= i < |items| && items[i].productId in owned;
        assert items[1..][i - 1] == items[i];
      }
      if Touches(items[1..], owned) {
        var i :| 0 <= i < |items[1..]| && items[1..][i].productId in owned;
        assert items[i + 1].productId in owned;
      }
    }
  }

  /** `items.reduce((total, item) => total + price * quantity, 0)`, prices in cents. */
  function Total(items: seq<OrderItem>, catalog: Catalog): (t: int)
    requires AllKnown(catalog, items)
    ensures NonNegativeAmounts(items, catalog) ==> t >= 0
    decreases |items|
  {
    if items == [] then 0
    else
      assert AllKnown(catalog, items[1..]) by {
        forall j | 0 <= j < |items[1..]| ensures items[1..][j] == items[j + 1] { }
      }
      assert NonNegativeAmounts(items, catalog) ==> NonNegativeAmounts(items[1..], catalog) by {
        forall j | 0 <= j < |items[1..]| ensures items[1..][j] == items[j + 1] { }
      }
      catalog[items[0].productId].price * items[0].quantity + Total(items[1..], catalog)
  }

  /** The total of two runs of items is the sum of their totals. */
  lemma {:induction false} TotalAppend(a: seq<OrderItem>, b: seq<OrderItem>, catalog: Catalog)
    requires AllKnown(catalog, a + b)
    ensures AllKnown(catalog, a) && AllKnown(catalog, b)
    ensures Total(a + b, catalog) == Total(a, catalog) + Total(b, catalog)
    decreases |a|
  {
    if a == [] {
      assert a + b == b;
    } else {
      var ab := a + b;
      assert ab[0] == a[0] && ab[1..] == a[1..] + b;
      TotalAppend(a[1..], b, catalog);
      assert AllKnown(catalog, a) by {
        forall j | 0 <= j < |a| ensures a[j].productId in catalog {
          assert a[j] == ab[j];
        }
      }
    }
  }

  predicate NonNegativeAmounts(items: seq<OrderItem>, catalog: Catalog)
    requires AllKnown(catalog, items)
  {
    forall j :: 0 <= j < |items| ==> catalog[items[j].productId].price >= 0 && items[j].quantity >= 0
  }

  /** The owned share of an order's total never exceeds the total when prices and quantities are non-negative. */
  lemma {:induction false} StaffTotalAtMostOrderTotal(items: seq<OrderItem>, owned: set<ProductId>, catalog: Catalog)
    requires AllKnown(catalog, items) && NonNegativeAmounts(items, catalog)
    ensures AllKnown(catalog, FilterOwned(items, owned))
    ensures 0 <= Total(FilterOwned(items, owned), catalog) <= Total(items, catalog)
    decreases |items|
  {
    if items != [] {
      var rest := items[1..];
      assert AllKnown(catalog, rest) && NonNegativeAmounts(rest, catalog) by {
        forall j | 0 <= j < |rest| ensures rest[j] == items[j + 1] { }
      }
      StaffTotalAtMostOrderTotal(rest, owned, catalog);
      var it := items[0];
      assert catalog[it.productId].price * it.quantity >= 0;
      if it.productId in owned {
        var r := [it] + FilterOwned(rest, owned);
        assert r[1..] == FilterOwned(rest, owned);
      }
    }
  }

  // ---------------------------------------------------------------------------
  // Detail view

  /** One line of `allItems` (or of `staffItems`, where `isStaffProduct` always holds). */
  datatype ItemView = ItemView(
    productId: ProductId,
    productPrice: int,
    quantity: int,
    subtotal: int,
    inStock: int,
    isStaffProduct: bool)

  /** The detail answer, amounts in cents. */
  datatype OrderDetail = OrderDetail(
    orderStatus: string,
    locked: bool,
    totalItems: nat,
    staffRelatedItems: nat,
    orderTotal: int,
    staffTotal: int,
    allItems: seq<ItemView>,
    staffItems: seq<ItemView>)

  function ViewItem(it: OrderItem, catalog: Catalog, owned: set<ProductId>): (v: ItemView)
    requires it.productId in catalog
    ensures v.productId == it.productId && v.quantity == it.quantity
    ensures v.productPrice == catalog[it.productId].price && v.inStock == catalog[it.productId].inStock
    ensures v.subtotal == catalog[it.productId].price * it.quantity
    ensures v.isStaffProduct <==> it.productId in owned
  {
    var product := catalog[it.productId];
    ItemView(it.productId, product.price, it.quantity, product.price * it.quantity, product.inStock, it.productId in owned)
  }

  function ViewItems(items: seq<OrderItem>, catalog: Catalog, owned: set<ProductId>): (vs: seq<ItemView>)
    requires AllKnown(catalog, items)
    ensures |vs| == |items|
    ensures forall j :: 0 <= j < |items| ==> vs[j] == ViewItem(items[j], catalog, owned)
    decreases |items|
  {
    if items == [] then [] else [ViewItem(items[0], catalog, owned)] + ViewItems(items[1..], catalog, owned)
  }

  /**
   * The staff detail view of an order: 403 without assigned products, 404
   * for an unknown order, 500 when an item's product no longer exists (the
   * joined product is null), 403 when no item is in scope; otherwise the
   * detail with the owned items and both totals.
   */
  function StaffOrderDetail(catalog: Catalog, orders: map<OrderId, Order>, staff: UserId, id: OrderId)
    : (r: Result<OrderDetail, OrderError>)
    ensures OwnedProducts(catalog, staff) == {} ==> r == Failure(NoProductsAssigned)
    ensures OwnedProducts(catalog, staff) != {} && id !in orders ==> r == Failure(OrderNotFound)
    ensures OwnedProducts(catalog, staff) != {} && id in orders && !AllKnown(catalog, orders[id].items) ==>
              r == Failure(ServerError)
    ensures r.Failure? && r.error == AccessDenied <==>
              OwnedProducts(catalog, staff) != {} && id in orders && AllKnown(catalog, orders[id].items) &&
              !Touches(orders[id].items, OwnedProducts(catalog, staff))
    ensures r.Success? <==>
              OwnedProducts(catalog, staff) != {} && id in orders && AllKnown(catalog, orders[id].items) &&
              Touches(orders[id].items, OwnedProducts(catalog, staff))
    ensures r.Failure? ==> StatusCode(r.error) == match r.error
                                                 case OrderNotFound => 404
                                                 case ServerError => 500
                                                 case _ => 403
    ensures r.Success? ==>
              var o := orders[id];
              var owned := OwnedProducts(catalog, staff);
              && AllKnown(catalog, o.items)
              && r.value.allItems == ViewItems(o.items, catalog, owned)
              && r.value.staffItems == ViewItems(FilterOwned(o.items, owned), catalog, owned)
              && r.value.staffRelatedItems == |FilterOwned(o.items, owned)|
              && r.value.orderTotal == Total(o.items, catalog)
              && r.value.staffTotal == Total(FilterOwned(o.items, owned), catalog)
              && 0 < r.value.staffRelatedItems <= r.value.totalItems == |o.items|
              && r.value.orderStatus == (if o.status == "" then "pending" else o.status)
              && r.value.locked == o.locked
  {
    var owned := OwnedProducts(catalog, staff);
    if owned == {} then Failure(NoProductsAssigned)
    else if id !in orders then Failure(OrderNotFound)
    else
      var o := orders[id];
      if !AllKnown(catalog, o.items) then Failure(ServerError)
      else
        var staffItems := FilterOwned(o.items, owned);
        FilterOwnedIsOwnedSubsequence(o.items, owned);
        FilterOwnedNonEmptyIffTouches(o.items, owned);
        assert AllKnown(catalog, staffItems) by {
          forall j | 0 <= j < |staffItems| ensures staffItems[j].productId in catalog {
            assert staffItems[j] in multiset(staffItems);
            assert staffItems[j] in multiset(o.items);
          }
        }
        if |staffItems| == 0 then Failure(AccessDenied)
        else
          Success(OrderDetail(
            if o.status == "" then "pending" else o.status,
            o.locked,
            |o.items|,
            |staffItems|,
            Total(o.items, catalog),
            Total(staffItems, catalog),
            ViewItems(o.items, catalog, owned),
            ViewItems(staffItems, catalog, owned)))
  }

  // ---------------------------------------------------------------------------
  // Guarded updates

  /** The ownership guard shared by status update, lock and unlock: the order, if the staff member may act on it. */
  function Access(catalog: Catalog, orders: map<OrderId, Order>, staff: UserId, id: OrderId): (r: Result<Order, OrderError>)
    ensures OwnedProducts(catalog, staff) == {} ==> r == Failure(NoProductsAssigned)
    ensures OwnedProducts(catalog, staff) != {} && id !in orders ==> r == Failure(OrderNotFound)
    ensures r.Success? <==> id in orders && Touches(orders[id].items, OwnedProducts(catalog, staff))
    ensures r.Success? ==> r.value == orders[id]
    ensures OwnedProducts(catalog, staff) != {} && id in orders && !Touches(orders[id].items, OwnedProducts(catalog, staff)) ==>
              r == Failure(AccessDenied)
    ensures r.Failure? ==> r.error in {NoProductsAssigned, OrderNotFound, AccessDenied}
    ensures r.Failure? ==> StatusCode(r.error) == if r.error == OrderNotFound then 404 else 403
  {
    var owned := OwnedProducts(catalog, staff);
    if owned == {} then Failure(NoProductsAssigned)
    else if id !in orders then Failure(OrderNotFound)
    else
      FilterOwnedNonEmptyIffTouches(orders[id].items, owned);
      if |FilterOwned(orders[id].items, owned)| == 0 then Failure(AccessDenied)
      else Success(orders[id])
  }

  /**
   * updateStatus: the status is validated before anything is looked up;
   * then the ownership guard, the lock guard and the final-status guard, in
   * this order. On success only the status changes.
   */
  function StatusUpdate(catalog: Catalog, orders: map<OrderId, Order>, staff: UserId, id: OrderId, status: Option<string>)
    : (r: Result<Order, OrderError>)
    ensures !Truthy(status) ==> r == Failure(StatusRequired)
    ensures Truthy(status) && status.value !in ValidStatuses ==> r == Failure(InvalidStatus)
    ensures Truthy(status) && status.value in ValidStatuses && Access(catalog, orders, staff, id).Failure? ==>
              r == Access(catalog, orders, staff, id)
    ensures r.Failure? && r.error == OrderLocked <==>
              Truthy(status) && status.value in ValidStatuses &&
              Access(catalog, orders, staff, id).Success? && orders[id].locked
    ensures r.Failure? && r.error == FinalStatus <==>
              Truthy(status) && status.value in ValidStatuses &&
              Access(catalog, orders, staff, id).Success? && !orders[id].locked && IsFinal(orders[id].status)
    ensures r.Success? <==>
              Truthy(status) && status.value in ValidStatuses && Access(catalog, orders, staff, id).Success? &&
              !orders[id].locked && !IsFinal(orders[id].status)
    ensures r.Success? ==> r.value == orders[id].(status := status.value)
    ensures r.Failure? ==> StatusCode(r.error) == if r.error == OrderNotFound then 404
                                                 else if r.error in {NoProductsAssigned, AccessDenied} then 403
                                                 else 400
  {
    if !Truthy(status) then Failure(StatusRequired)
    else if status.value !in ValidStatuses then Failure(InvalidStatus)
    else match Access(catalog, orders, staff, id)
      case Failure(e) => Failure(e)
      case Success(o) =>
        if o.locked then Failure(OrderLocked)
        else if IsFinal(o.status) then Failure(FinalStatus)
        else Success(o.(status := status.value))
  }

  /** lock: the ownership guard, then `locked` set whatever the status. */
  function LockUpdate(catalog: Catalog, orders: map<OrderId, Order>, staff: UserId, id: OrderId): (r: Result<Order, OrderError>)
    ensures r.Failure? <==> Access(catalog, orders, staff, id).Failure?
    ensures r.Failure? ==> r == Access(catalog, orders, staff, id)
    ensures r.Success? ==> r.value == orders[id].(locked := true)
  {
    match Access(catalog, orders, staff, id)
    case Failure(e) => Failure(e)
    case Success(o) => Success(o.(locked := true))
  }

  /** unlock: the ownership guard, then refused for a completed or delivered order, otherwise `locked` cleared. */
  function UnlockUpdate(catalog: Catalog, orders: map<OrderId, Order>, staff: UserId, id: OrderId): (r: Result<Order, OrderError>)
    ensures Access(catalog, orders, staff, id).Failure? ==> r == Access(catalog, orders, staff, id)
    ensures r.Failure? && r.error == UnlockFinal <==>
              Access(catalog, orders, staff, id).Success? && IsFinal(orders[id].status)
    ensures r.Success? <==> Access(catalog, orders, staff, id).Success? && !IsFinal(orders[id].status)
    ensures r.Success? ==> r.value == orders[id].(locked := false)
    ensures r.Failure? ==> StatusCode(r.error) == if r.error == OrderNotFound then 404
                                                 else if r.error in {NoProductsAssigned, AccessDenied} then 403
                                                 else 400
  {
    match Access(catalog, orders, staff, id)
    case Failure(e) => Failure(e)
    case Success(o) =>
      if IsFinal(o.status) then Failure(UnlockFinal)
      else Success(o.(locked := false))
  }

  // ---------------------------------------------------------------------------
  // Sequences of staff actions

  /** A staff request on one order. */
  datatype Command =
    | SetStatus(staff: UserId, id: OrderId, status: Option<string>)
    | Lock(staff: UserId, id: OrderId)
    | Unlock(staff: UserId, id: OrderId)

  function Step(catalog: Catalog, orders: map<OrderId, Order>, cmd: Command): Result<Order, OrderError> {
    match cmd
    case SetStatus(s, id, st) => StatusUpdate(catalog, orders, s, id, st)
    case Lock(s, id) => LockUpdate(catalog, orders, s, id)
    case Unlock(s, id) => UnlockUpdate(catalog, orders, s, id)
  }

  /** The stored orders after one request: the updated order written back on success, nothing changed otherwise. */
  function Apply(catalog: Catalog, orders: map<OrderId, Order>, cmd: Command): (r: map<OrderId, Order>)
    ensures r.Keys == orders.Keys
    ensures forall id :: id in orders && id != cmd.id ==> r[id] == orders[id]
  {
    match Step(catalog, orders, cmd)
    case Failure(_) => orders
    case Success(o) => orders[cmd.id := o]
  }

  function Run(catalog: Catalog, orders: map<OrderId, Order>, cmds: seq<Command>): map<OrderId, Order>
    decreases |cmds|
  {
    if cmds == [] then orders else Run(catalog, Apply(catalog, orders, cmds[0]), cmds[1..])
  }

  /** Locking twice is locking once. */
  lemma LockIdempotent(catalog: Catalog, orders: map<OrderId, Order>, staff: UserId, id: OrderId)
    ensures var once := Apply(catalog, orders, Lock(staff, id));
            Apply(catalog, once, Lock(staff, id)) == once
  {
  }

  /** A locked order refuses every status update, whatever the requested status. */
  lemma LockedRefusesStatus(catalog: Catalog, orders: map<OrderId, Order>, staff: UserId, id: OrderId, status: Option<string>)
    requires id in orders && orders[id].locked
    ensures Apply(catalog, orders, SetStatus(staff, id, status)) == orders
    ensures StatusUpdate(catalog, orders, staff, id, status).Failure?
  {
  }

  /**
   * Once an order is locked with a completed or delivered status, no
   * sequence of status updates, locks and unlocks changes it.
   */
  lemma {:induction false} FrozenStaysFrozen(catalog: Catalog, orders: map<OrderId, Order>, cmds: seq<Command>, id: OrderId)
    requires id in orders && orders[id].locked && IsFinal(orders[id].status)
    ensures id in Run(catalog, orders, cmds) && Run(catalog, orders, cmds)[id] == orders[id]
    decreases |cmds|
  {
    if cmds != [] {
      var next := Apply(catalog, orders, cmds[0]);
      assert next[id] == orders[id];
      FrozenStaysFrozen(catalog, next, cmds[1..], id);
    }
  }

  /** After a successful unlock, the same staff member can set any valid status on the order. */
  lemma UnlockThenUpdate(catalog: Catalog, orders: map<OrderId, Order>, staff: UserId, id: OrderId, s: string)
    requires UnlockUpdate(catalog, orders, staff, id).Success?
    requires s in ValidStatuses
    ensures var unlocked := Apply(catalog, orders, Unlock(staff, id));
            StatusUpdate(catalog, unlocked, staff, id, Some(s)) == Success(orders[id].(locked := false, status := s))
  {
  }

  /** After an update to a final status the order can no longer be updated, even after an unlock attempt. */
  lemma FinalStatusIsTerminal(catalog: Catalog, orders: map<OrderId, Order>, staff: UserId, id: OrderId, s: string, t: Option<string>)
    requires StatusUpdate(catalog, orders, staff, id, Some(s)).Success? && IsFinal(s)
    ensures var done := Apply(catalog, orders, SetStatus(staff, id, Some(s)));
            && StatusUpdate(catalog, done, staff, id, t).Failure?
            && UnlockUpdate(catalog, done, staff, id).Failure?
  {
  }

  /** Staff "s1" owns P1 (price 10, stock 5); "s2" owns P2 (price 20, stock 1). */
  function ScopeCatalog(): Catalog {
    map["P1" := Product(1000, 5, "s1"), "P2" := Product(2000, 1, "s2")]
  }

  /**
   * An order holding 2 of P1 and 1 of P2, seen by "s1": only the P1 line is
   * a staff item, the staff total is 2 x 10.00 and the order total 40.00.
   */
  lemma OwnershipScenario()
    ensures var orders := map[7 := NewOrder(Some("c1"), [OrderItem("P1", 2), OrderItem("P2", 1)])];
            var r := StaffOrderDetail(ScopeCatalog(), orders, "s1", 7);
            && r.Success?
            && |r.value.staffItems| == 1 && r.value.staffItems[0].productId == "P1"
            && r.value.staffTotal == 2000 && r.value.orderTotal == 4000
  {
    var items := [OrderItem("P1", 2), OrderItem("P2", 1)];
    var owned := OwnedProducts(ScopeCatalog(), "s1");
    assert "P1" in owned && "P2" !in owned;
    assert items[1..][1..] == [];
    assert FilterOwned(items, owned) == [OrderItem("P1", 2)];
  }
}
