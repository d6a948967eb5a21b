/**
 * The stock rules of customer order creation: every item is checked
 * against the product's current stock and, when it passes, debited at
 * once, before the next item is looked at. The first item that fails ends
 * the request with the earlier debits already applied.
 */
module Checkout {
  import opened Wrappers
  import opened OrderModel

  /** `!product || product.inStock < item.quantity` fails: the product exists and covers the quantity. */
  function Available(catalog: Catalog, it: OrderItem): (b: bool)
    ensures it.productId !in catalog ==> !b
    ensures b ==> catalog[it.productId].inStock - it.quantity >= 0
  {
    it.productId in catalog && catalog[it.productId].inStock >= it.quantity
  }

  /** `product.inStock -= item.quantity` followed by the product's save. */
  function Debit(catalog: Catalog, it: OrderItem): (r: Catalog)
    requires it.productId in catalog
    ensures r.Keys == catalog.Keys
    ensures r[it.productId].inStock == catalog[it.productId].inStock - it.quantity
    ensures r[it.productId].price == catalog[it.productId].price
    ensures r[it.productId].staffId == catalog[it.productId].staffId
    ensures forall p :: p in catalog && p != it.productId ==> r[p] == catalog[p]
  {
    var product := catalog[it.productId];
    catalog[it.productId := product.(inStock := product.inStock - it.quantity)]
  }

  /** How the item loop ends: every item debited, or stopped at item `at` with the stock as it was then. */
  datatype Reservation = Reserved(stock: Catalog) | Rejected(stock: Catalog, at: nat)

  /** The item loop of order creation, over the stock it starts from. */
  function ReserveAll(catalog: Catalog, items: seq<OrderItem>): (r: Reservation)
    ensures r.stock.Keys == catalog.Keys
    ensures r.Rejected? ==> r.at < |items| && !Available(r.stock, items[r.at])
    decreases |items|
  {
    if items == [] then Reserved(catalog)
    else if !Available(catalog, items[0]) then Rejected(catalog, 0)
    else Offset(ReserveAll(Debit(catalog, items[0]), items[1..]), 1)
  }

  /** A reservation of a suffix seen from `n` items earlier. */
  function Offset(r: Reservation, n: nat): Reservation {
    match r
    case Reserved(s) => Reserved(s)
    case Rejected(s, k) => Rejected(s, k + n)
  }

  /** A debit the stock covers leaves no stock negative. */
  lemma DebitKeepsStockNonNegative(catalog: Catalog, it: OrderItem)
    requires StockNonNegative(catalog) && Available(catalog, it)
    ensures StockNonNegative(Debit(catalog, it))
  {
    var r := Debit(catalog, it);
    forall p | p in r ensures r[p].inStock >= 0 {
      if p != it.productId {
        assert r[p] == catalog[p];
      }
    }
  }

  /**
   * One pass of the item loop at position i: a rejected item ends the loop
   * there, and a covered item is debited with the rest of the loop picking
   * up at i + 1.
   */
  lemma ReserveStep(catalog: Catalog, items: seq<OrderItem>, i: nat)
    requires i < |items|
    ensures !Available(catalog, items[i]) ==> Offset(ReserveAll(catalog, items[i..]), i) == Rejected(catalog, i)
    ensures Available(catalog, items[i]) ==>
              Offset(ReserveAll(Debit(catalog, items[i]), items[i + 1..]), i + 1) ==
              Offset(ReserveAll(catalog, items[i..]), i)
  {
    assert items[i..][0] == items[i] && items[i..][1..] == items[i + 1..];
    if Available(catalog, items[i]) {
      match ReserveAll(Debit(catalog, items[i]), items[i + 1..])
      case Reserved(_) =>
      case Rejected(_, _) =>
    }
  }

  /** The total quantity ordered for a product. */
  function TotalQty(items: seq<OrderItem>, p: ProductId): int
    decreases |items|
  {
    if items == [] then 0
    else (if items[0].productId == p then items[0].quantity else 0) + TotalQty(items[1..], p)
  }

  /**
   * After a successful reservation every product's stock is its old stock
   * minus the total ordered for it; price and owner are untouched.
   */
  lemma {:induction false} ReservedDebitsTotals(catalog: Catalog, items: seq<OrderItem>, p: ProductId)
    requires ReserveAll(catalog, items).Reserved?
    requires p in catalog
    ensures AllKnown(catalog, items)
    ensures ReserveAll(catalog, items).stock[p].inStock == catalog[p].inStock - TotalQty(items, p)
    ensures ReserveAll(catalog, items).stock[p].price == catalog[p].price
    ensures ReserveAll(catalog, items).stock[p].staffId == catalog[p].staffId
    decreases |items|
  {
    if items != [] {
      var next := Debit(catalog, items[0]);
      ReservedDebitsTotals(next, items[1..], p);
      forall j | 0 <= j < |items| ensures items[j].productId in catalog {
        if j > 0 {
          assert items[j] == items[1..][j - 1];
        }
      }
    }
  }

  /**
   * No rollback: a reservation rejected at item k leaves exactly the stock
   * the first k items produced, all of which passed, and item k is the one
   * the stock could not cover.
   */
  lemma {:induction false} RejectedKeepsEarlierDebits(catalog: Catalog, items: seq<OrderItem>)
    requires ReserveAll(catalog, items).Rejected?
    ensures var r := ReserveAll(catalog, items);
            ReserveAll(catalog, items[..r.at]) == Reserved(r.stock) && !Available(r.stock, items[r.at])
    decreases |items|
  {
    if Available(catalog, items[0]) {
      var next := Debit(catalog, items[0]);
      RejectedKeepsEarlierDebits(next, items[1..]);
      var k := ReserveAll(catalog, items).at;
      assert items[..k][1..] == items[1..][..k - 1];
    }
  }

  /**
   * Stock never goes below zero: an item is debited only when the stock
   * covers it, whichever way the request ends.
   */
  lemma {:induction false} ReserveKeepsStockNonNegative(catalog: Catalog, items: seq<OrderItem>)
    requires StockNonNegative(catalog)
    ensures StockNonNegative(ReserveAll(catalog, items).stock)
    decreases |items|
  {
    if items != [] && Available(catalog, items[0]) {
      ReserveKeepsStockNonNegative(Debit(catalog, items[0]), items[1..]);
    }
  }

  /** Quantities are not validated: a negative quantity passes the stock check and raises the stock. */
  lemma NegativeQuantityRaisesStock(catalog: Catalog, pid: ProductId, q: int)
    requires pid in catalog && catalog[pid].inStock >= 0 && q < 0
    ensures ReserveAll(catalog, [OrderItem(pid, q)]).Reserved?
    ensures ReserveAll(catalog, [OrderItem(pid, q)]).stock[pid].inStock > catalog[pid].inStock
  {
  }

  /** Two products A (price 10, stock 5) and B (price 20, stock `stockB`), each owned by staff "s1". */
  function TwoProducts(stockB: int): Catalog {
    map["A" := Product(1000, 5, "s1"), "B" := Product(2000, stockB, "s1")]
  }

  /** Ordering 2 of A and 1 of B with B in stock leaves A at 3 and B at 0. */
  lemma CheckoutScenario()
    ensures var r := ReserveAll(TwoProducts(1), [OrderItem("A", 2), OrderItem("B", 1)]);
            r.Reserved? && r.stock["A"].inStock == 3 && r.stock["B"].inStock == 0
  {
  }

  /** The same order with B out of stock is refused at B, and A stays debited to 3. */
  lemma CheckoutScenarioOutOfStock()
    ensures var r := ReserveAll(TwoProducts(0), [OrderItem("A", 2), OrderItem("B", 1)]);
            r.Rejected? && r.at == 1 && r.stock["A"].inStock == 3 && r.stock["B"].inStock == 0
  {
  }
}
