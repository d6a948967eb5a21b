/**
 * The cart rules of the order routes: how add-to-cart validates request
 * items and merges them into a customer's cart lines, and how remove drops
 * a product's lines. The store (OrderStore) applies these to its carts.
 */
module CartRules {
  import opened Wrappers
  import opened OrderModel

  /** One entry of the request's `items`; either field may be absent. */
  datatype RequestItem = RequestItem(productId: Option<ProductId>, quantity: Option<int>)

  /** `!productId || !quantity` fails: an absent or empty id, an absent or zero quantity. */
  predicate HasFields(it: RequestItem) {
    Truthy(it.productId) && it.quantity.Some? && it.quantity.value != 0
  }

  /** An item add-to-cart gets past the field, quantity and product checks with. */
  predicate Acceptable(it: RequestItem, catalog: Catalog) {
    HasFields(it) && it.quantity.value > 0 && it.productId.value in catalog
  }

  // ---------------------------------------------------------------------------
  // Cart lines

  /** `cart.items.findIndex(line => line.productId === pid)`: the first matching index, or -1. */
  function FindLine(lines: seq<CartLine>, pid: ProductId): (r: int)
    ensures -1 <= r < |lines|
    ensures r >= 0 ==> lines[r].productId == pid
    ensures forall j :: 0 <= j < |lines| && (r < 0 || j < r) ==> lines[j].productId != pid
  {
    if lines == [] then -1
    else if lines[0].productId == pid then 0
    else
      var k := FindLine(lines[1..], pid);
      if k < 0 then -1 else k + 1
  }

  /** The quantity add-to-cart sees for a product: that of its first line, 0 without one. */
  function QtyOf(lines: seq<CartLine>, pid: ProductId): int {
    var i := FindLine(lines, pid);
    if i < 0 then 0 else lines[i].quantity
  }

  /** At most one line per product. */
  predicate OneLinePerProduct(lines: seq<CartLine>) {
    forall i, j :: 0 <= i < j < |lines| ==> lines[i].productId != lines[j].productId
  }

  predicate PositiveQuantities(lines: seq<CartLine>) {
    forall i :: 0 <= i < |lines| ==> lines[i].quantity > 0
  }

  /** The shape every stored cart keeps: one line per product, each with a positive quantity. */
  predicate WellFormedCart(lines: seq<CartLine>) {
    OneLinePerProduct(lines) && PositiveQuantities(lines)
  }

  // ---------------------------------------------------------------------------
  // Add to cart

  /**
   * One pass of the add-to-cart loop: the field, quantity and product
   * checks, then either the existing line's quantity raised to
   * existing + requested (refused when the stock is below that combined
   * quantity) or a new line appended (refused when the stock is below the
   * requested quantity).
   */
  function AddItem(lines: seq<CartLine>, it: RequestItem, catalog: Catalog): (r: Result<seq<CartLine>, OrderError>)
    ensures !HasFields(it) ==> r == Failure(ItemFieldsMissing)
    ensures it.productId.None? || it.productId == Some("") || it.quantity.None? || it.quantity == Some(0) ==>
              r == Failure(ItemFieldsMissing)
    ensures HasFields(it) && it.quantity.value < 0 ==> r == Failure(NonPositiveQuantity)
    ensures HasFields(it) && it.quantity.value > 0 && it.productId.value !in catalog ==>
              r == Failure(ProductNotFound(it.productId.value))
    ensures Acceptable(it, catalog) ==>
              (r.Success? <==> QtyOf(lines, it.productId.value) + it.quantity.value <= catalog[it.productId.value].inStock)
    ensures Acceptable(it, catalog) && FindLine(lines, it.productId.value) >= 0 &&
            QtyOf(lines, it.productId.value) + it.quantity.value > catalog[it.productId.value].inStock ==>
              r == Failure(ExceedsStock(it.productId.value, QtyOf(lines, it.productId.value) + it.quantity.value,
                                        catalog[it.productId.value].inStock))
    ensures Acceptable(it, catalog) && FindLine(lines, it.productId.value) < 0 &&
            it.quantity.value > catalog[it.productId.value].inStock ==>
              r == Failure(InsufficientStock(it.productId.value, it.quantity.value, catalog[it.productId.value].inStock))
    ensures r.Success? ==> Acceptable(it, catalog)
    ensures r.Failure? ==> StatusCode(r.error) == if r.error.ProductNotFound? then 404 else 400
    ensures r.Success? && FindLine(lines, it.productId.value) >= 0 ==>
              var i := FindLine(lines, it.productId.value);
              r.value == lines[i := CartLine(it.productId.value, lines[i].quantity + it.quantity.value)]
    ensures r.Success? && FindLine(lines, it.productId.value) < 0 ==>
              r.value == lines + [CartLine(it.productId.value, it.quantity.value)]
  {
    if !HasFields(it) then Failure(ItemFieldsMissing)
    else
      var pid, quantity := it.productId.value, it.quantity.value;
      if quantity <= 0 then Failure(NonPositiveQuantity)
      else if pid !in catalog then Failure(ProductNotFound(pid))
      else
        var product := catalog[pid];
        var i := FindLine(lines, pid);
        if i > -1 then
          var newQuantity := lines[i].quantity + quantity;
          if product.inStock < newQuantity then Failure(ExceedsStock(pid, newQuantity, product.inStock))
          else Success(lines[i := CartLine(pid, newQuantity)])
        else if product.inStock < quantity then Failure(InsufficientStock(pid, quantity, product.inStock))
        else Success(lines + [CartLine(pid, quantity)])
  }

  /** The add-to-cart loop over all items: the first refused item decides the answer. */
  function AddItems(lines: seq<CartLine>, items: seq<RequestItem>, catalog: Catalog): (r: Result<seq<CartLine>, OrderError>)
    ensures items == [] ==> r == Success(lines)
    ensures r.Success? ==> |lines| <= |r.value| <= |lines| + |items|
    ensures r.Success? ==> forall j :: 0 <= j < |lines| ==> r.value[j].productId == lines[j].productId
    ensures r.Failure? ==> r.error.ItemFieldsMissing? || r.error.NonPositiveQuantity? || r.error.ProductNotFound? ||
                           r.error.ExceedsStock? || r.error.InsufficientStock?
    decreases |items|
  {
    if items == [] then Success(lines)
    else match AddItem(lines, items[0], catalog)
      case Failure(e) => Failure(e)
      case Success(next) => AddItems(next, items[1..], catalog)
  }

  /** The item loop over two runs of items is the loop over the first, continued with the second. */
  lemma {:induction false} AddItemsAppend(lines: seq<CartLine>, a: seq<RequestItem>, b: seq<RequestItem>, catalog: Catalog)
    ensures AddItems(lines, a + b, catalog) ==
            match AddItems(lines, a, catalog)
            case Success(next) => AddItems(next, b, catalog)
            case Failure(e) => Failure(e)
    decreases |a|
  {
    if a == [] {
      assert a + b == b;
    } else {
      assert (a + b)[0] == a[0] && (a + b)[1..] == a[1..] + b;
      if AddItem(lines, a[0], catalog).Success? {
        AddItemsAppend(AddItem(lines, a[0], catalog).value, a[1..], b, catalog);
      }
    }
  }

  /**
   * The answer of a refused add is the refusal of the first failing item,
   * merged into the cart the items before it produced.
   */
  lemma AddItemsStopsAtFirstFailure(lines: seq<CartLine>, items: seq<RequestItem>, catalog: Catalog, k: nat)
    requires k < |items|
    requires AddItems(lines, items[..k], catalog).Success?
    requires AddItem(AddItems(lines, items[..k], catalog).value, items[k], catalog).Failure?
    ensures AddItems(lines, items, catalog) == AddItem(AddItems(lines, items[..k], catalog).value, items[k], catalog)
  {
    var next := AddItems(lines, items[..k], catalog).value;
    assert items == items[..k] + items[k..];
    AddItemsAppend(lines, items[..k], items[k..], catalog);
    assert items[k..][0] == items[k];
  }

  /** The whole add-to-cart request: a missing or empty `items` is refused first. */
  function AddToCart(cart: seq<CartLine>, items: Option<seq<RequestItem>>, catalog: Catalog)
    : (r: Result<seq<CartLine>, OrderError>)
    ensures items.None? || items.value == [] ==> r == Failure(ItemsRequired)
    ensures items.Some? && items.value != [] ==> r == AddItems(cart, items.value, catalog)
  {
    if items.None? || |items.value| == 0 then Failure(ItemsRequired)
    else AddItems(cart, items.value, catalog)
  }

  /** The total quantity the request asks for a product. */
  function Requested(items: seq<RequestItem>, pid: ProductId): int
    decreases |items|
  {
    if items == [] then 0
    else
      (if items[0].productId == Some(pid) && items[0].quantity.Some? then items[0].quantity.value else 0)
      + Requested(items[1..], pid)
  }

  /** Raising a line's quantity leaves every product's first line where it was. */
  lemma {:induction false} FindLineAfterUpdate(lines: seq<CartLine>, i: nat, line: CartLine, p: ProductId)
    requires i < |lines| && line.productId == lines[i].productId
    ensures FindLine(lines[i := line], p) == FindLine(lines, p)
    decreases |lines|
  {
    if i == 0 {
      assert lines[i := line][1..] == lines[1..];
    } else {
      assert lines[i := line][1..] == lines[1..][i - 1 := line];
      FindLineAfterUpdate(lines[1..], i - 1, line, p);
    }
  }

  /** Appending a line only gives a first line to a product that had none. */
  lemma {:induction false} FindLineAfterAppend(lines: seq<CartLine>, line: CartLine, p: ProductId)
    ensures FindLine(lines + [line], p) ==
            if FindLine(lines, p) >= 0 then FindLine(lines, p)
            else if line.productId == p then |lines| else -1
    decreases |lines|
  {
    if lines != [] {
      assert (lines + [line])[1..] == lines[1..] + [line];
      FindLineAfterAppend(lines[1..], line, p);
    }
  }

  /** One add step raises the product's quantity by the requested amount and no other product's. */
  lemma AddItemQuantities(lines: seq<CartLine>, it: RequestItem, catalog: Catalog)
    requires AddItem(lines, it, catalog).Success?
    ensures var next := AddItem(lines, it, catalog).value;
            && QtyOf(next, it.productId.value) == QtyOf(lines, it.productId.value) + it.quantity.value
            && QtyOf(next, it.productId.value) <= catalog[it.productId.value].inStock
            && forall p :: p != it.productId.value ==> QtyOf(next, p) == QtyOf(lines, p)
  {
    var pid := it.productId.value;
    var next := AddItem(lines, it, catalog).value;
    var i := FindLine(lines, pid);
    if i >= 0 {
      forall p ensures FindLine(next, p) == FindLine(lines, p) {
        FindLineAfterUpdate(lines, i, next[i], p);
      }
    } else {
      forall p ensures FindLine(next, p) == if FindLine(lines, p) >= 0 then FindLine(lines, p)
                                           else if pid == p then |lines| else -1 {
        FindLineAfterAppend(lines, CartLine(pid, it.quantity.value), p);
      }
    }
  }

  /** One add step keeps the cart well formed: it never adds a second line for a product. */
  lemma AddItemKeepsWellFormed(lines: seq<CartLine>, it: RequestItem, catalog: Catalog)
    requires WellFormedCart(lines)
    requires AddItem(lines, it, catalog).Success?
    ensures WellFormedCart(AddItem(lines, it, catalog).value)
  {
  }

  /**
   * A successful add leaves one line per product: repeats of a product,
   * in the request or against the stored cart, are merged into its line.
   */
  lemma {:induction false} AddItemsKeepsWellFormed(lines: seq<CartLine>, items: seq<RequestItem>, catalog: Catalog)
    requires WellFormedCart(lines)
    requires AddItems(lines, items, catalog).Success?
    ensures WellFormedCart(AddItems(lines, items, catalog).value)
    decreases |items|
  {
    if items != [] {
      AddItemKeepsWellFormed(lines, items[0], catalog);
      AddItemsKeepsWellFormed(AddItem(lines, items[0], catalog).value, items[1..], catalog);
    }
  }

  /** After a successful add every product's quantity is its old one plus all that was requested for it. */
  lemma {:induction false} AddItemsAccumulates(lines: seq<CartLine>, items: seq<RequestItem>, catalog: Catalog, p: ProductId)
    requires AddItems(lines, items, catalog).Success?
    ensures QtyOf(AddItems(lines, items, catalog).value, p) == QtyOf(lines, p) + Requested(items, p)
    decreases |items|
  {
    if items != [] {
      var next := AddItem(lines, items[0], catalog).value;
      AddItemQuantities(lines, items[0], catalog);
      AddItemsAccumulates(next, items[1..], catalog, p);
    }
  }

  /** Nothing is requested for a product no item names. */
  lemma {:induction false} RequestedAbsent(items: seq<RequestItem>, p: ProductId)
    requires forall j :: 0 <= j < |items| ==> items[j].productId != Some(p)
    ensures Requested(items, p) == 0
    decreases |items|
  {
    if items != [] {
      RequestedAbsent(items[1..], p);
    }
  }

  /** After a successful add every product the request named has a quantity its stock covers. */
  lemma {:induction false} AddItemsWithinStock(lines: seq<CartLine>, items: seq<RequestItem>, catalog: Catalog, j: nat)
    requires AddItems(lines, items, catalog).Success?
    requires j < |items|
    ensures Acceptable(items[j], catalog)
    ensures QtyOf(AddItems(lines, items, catalog).value, items[j].productId.value)
            <= catalog[items[j].productId.value].inStock
    decreases |items|
  {
    var next := AddItem(lines, items[0], catalog).value;
    var rest := items[1..];
    if j > 0 {
      AddItemsWithinStock(next, rest, catalog, j - 1);
    } else {
      var pid := items[0].productId.value;
      AddItemQuantities(lines, items[0], catalog);
      if k :| 0 <= k < |rest| && rest[k].productId == Some(pid) {
        AddItemsWithinStock(next, rest, catalog, k);
      } else {
        RequestedAbsent(rest, pid);
        AddItemsAccumulates(next, rest, catalog, pid);
      }
    }
  }

  /** An item with a missing field, a quantity of 0 or less, or an unknown product makes the add fail. */
  lemma {:induction false} AddItemsRejectsBadItem(lines: seq<CartLine>, items: seq<RequestItem>, catalog: Catalog, j: nat)
    requires j < |items| && !Acceptable(items[j], catalog)
    ensures AddItems(lines, items, catalog).Failure?
    decreases |items|
  {
    if j > 0 && AddItem(lines, items[0], catalog).Success? {
      AddItemsRejectsBadItem(AddItem(lines, items[0], catalog).value, items[1..], catalog, j - 1);
    }
  }

  // ---------------------------------------------------------------------------
  // Remove from cart

  /** `cart.items.filter(line => line.productId !== pid)`. */
  function RemoveProduct(lines: seq<CartLine>, pid: ProductId): (r: seq<CartLine>)
    ensures forall i :: 0 <= i < |r| ==> r[i].productId != pid
    ensures |r| <= |lines|
    ensures forall x :: x in r ==> x in lines
    decreases |lines|
  {
    if lines == [] then []
    else if lines[0].productId == pid then RemoveProduct(lines[1..], pid)
    else [lines[0]] + RemoveProduct(lines[1..], pid)
  }

  /**
   * Remove keeps every other line, in its original order and with its
   * multiplicity, so it changes no other product's quantity.
   */
  lemma {:induction false} RemoveProductKeepsOthers(lines: seq<CartLine>, pid: ProductId)
    ensures IsSubsequence(RemoveProduct(lines, pid), lines)
    ensures forall x: CartLine :: x.productId != pid ==> multiset(RemoveProduct(lines, pid))[x] == multiset(lines)[x]
    decreases |lines|
  {
    if lines != [] {
      RemoveProductKeepsOthers(lines[1..], pid);
      assert lines == [lines[0]] + lines[1..];
      var rest := RemoveProduct(lines[1..], pid);
      if lines[0].productId != pid {
        assert ([lines[0]] + rest)[1..] == rest;
      }
    }
  }

  /** The quantity remove leaves for each product: none for the removed one, the old one otherwise. */
  lemma {:induction false} RemoveProductQuantities(lines: seq<CartLine>, pid: ProductId, p: ProductId)
    ensures QtyOf(RemoveProduct(lines, pid), p) == if p == pid then 0 else QtyOf(lines, p)
    decreases |lines|
  {
    if lines != [] {
      RemoveProductQuantities(lines[1..], pid, p);
      var rest := RemoveProduct(lines[1..], pid);
      if lines[0].productId != pid {
        assert ([lines[0]] + rest)[1..] == rest;
      }
    }
  }

  /** Removing a product twice is the same as removing it once. */
  lemma {:induction false} RemoveProductIdempotent(lines: seq<CartLine>, pid: ProductId)
    ensures RemoveProduct(RemoveProduct(lines, pid), pid) == RemoveProduct(lines, pid)
    decreases |lines|
  {
    if lines != [] {
      RemoveProductIdempotent(lines[1..], pid);
      var rest := RemoveProduct(lines[1..], pid);
      if lines[0].productId != pid {
        assert ([lines[0]] + rest)[1..] == rest;
      }
    }
  }

  /** Remove keeps the cart well formed. */
  lemma {:induction false} RemoveProductKeepsWellFormed(lines: seq<CartLine>, pid: ProductId)
    requires WellFormedCart(lines)
    ensures WellFormedCart(RemoveProduct(lines, pid))
    decreases |lines|
  {
    if lines != [] {
      RemoveProductKeepsWellFormed(lines[1..], pid);
      var rest := RemoveProduct(lines[1..], pid);
      if lines[0].productId != pid {
        var r := [lines[0]] + rest;
        forall i, j | 0 <= i < j < |r| ensures r[i].productId != r[j].productId {
          if i == 0 {
            assert r[j] == rest[j - 1] && rest[j - 1] in lines[1..];
          } else {
            assert r[i] == rest[i - 1] && r[j] == rest[j - 1];
          }
        }
      }
    }
  }
}
