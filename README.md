# Order management core in Dafny

This project models the server side of a small order management system.
Customers keep a cart and place orders. Staff members are assigned products
and act on the orders that contain them. The model covers four parts:

- **Order and cart routes** (`OrderRoutes.js`). An in-memory store holds
  products (price in cents, stock, owning staff id), one cart per customer
  and the orders, and each route handler is one sequential step over it.
  - Add-to-cart merges repeated products into one line and stores the cart
    only when every item passes.
  - Remove drops a product's lines, and clear deletes the cart.
  - Create order debits stock item by item, with no rollback.
  - Staff create stores an order as sent.
  - Staff scoping covers the listing and the detail view with its totals.
  - Status update, lock and unlock are guarded.

  The entities are in `order_model.dfy` and the cart rules in `cart.dfy`.
  The stock rules of order creation are in `checkout.dfy`, and the staff
  view and the guarded updates in `staff_scope.dfy`. The `Store` class in
  `order_store.dfy` applies these rules to its fields, with loops proved
  against them.
- **Registration and login checks** (`auth_controller.dfy`). Registration
  runs an ordered chain of validators, including an exact model of the
  unanchored email pattern, then a duplicate check. Login answers with one
  message for both an unknown email and a wrong password.
- **Request gating** (`auth_middleware.dfy`). The bearer token is taken
  from the `Authorization` header: the header split on single spaces, as
  JavaScript does it, with its second field as the token. The role gates
  follow, and so does the gate chain a route uses.
- **Client role helpers** (`role_check.dfy`). Role membership and the
  landing page after login.

Foreign library calls are parameters:

- token verification (`verify`);
- password hashing and comparison (`hash`, `compare`);
- token signing (`sign`).

The database is maps and sequences. A lookup that can miss returns an
`Option`, and a handler's error answer is the `Failure` case of a `Result`.

Where the code and the behaviour one would expect of it disagree, the model
follows the code:

- Create order keeps the stock debits of the items before a failing one, so
  a failed order can still have changed stock.
- Create order does not validate quantities on its own, so a negative
  quantity raises stock.
- Create order does not clear the cart.
- Only the lowercase `completed` and `delivered` statuses are final. The
  schema's own vocabulary is upper case (`PLACED`, `DELIVERED`, …), so an
  order the update route has never touched is never final.

## Model

| member | source | states |
|---|---|---|
| RoleCheck.HasRole | client/src/utils/roleCheck.js:1-4 | false for no user or a user without a role; otherwise true exactly when the role is among the allowed ones; always false for an empty list |
| RoleCheck.IsStaff | client/src/utils/roleCheck.js:10-12 | true exactly when `HasRole(user, ["staff"])` |
| RoleCheck.IsCustomer | client/src/utils/roleCheck.js:6-8 | true exactly when `HasRole(user, ["customer"])`; never true together with `IsStaff` |
| RoleCheck.RedirectByRole | client/src/utils/roleCheck.js:14-25 | customer goes to `/customer/products` and staff to `/staff/dashboard`; the result is `/login` exactly when the user is neither; no other result |
| AuthMiddleware.Split | server/middlewares/auth.middleware.js:5 | `split(' ')` always yields at least one field |
| AuthMiddleware.IndexOfSpace | server/middlewares/auth.middleware.js:5 | the position of the first space, or the length when there is none |
| AuthMiddleware.JoinSplit | server/middlewares/auth.middleware.js:5 | joining the split fields with spaces gives back the header, so no character is lost |
| AuthMiddleware.SplitFieldsHaveNoSpace | server/middlewares/auth.middleware.js:5 | no field contains a space |
| AuthMiddleware.SplitAtFirstSpace | server/middlewares/auth.middleware.js:5 | the first field is the text before the first space, and the remaining fields are the split of the text after it |
| AuthMiddleware.BearerToken | server/middlewares/auth.middleware.js:5 | a token exists exactly when there is a header with a space in it; it is the text after the first space up to the next space, and holds no space |
| AuthMiddleware.VerifyToken | server/middlewares/auth.middleware.js:4-18 | no or empty token gives 401 "No token provided"; a token `verify` rejects gives 401 "Invalid token"; a request proceeds exactly when `verify` accepts the token, with the decoded payload as user |
| AuthMiddleware.IsCustomer | server/middlewares/auth.middleware.js:21-28 | proceeds exactly when the role is "customer", with the user unchanged; otherwise 403 "Access denied. Customer only." |
| AuthMiddleware.IsStaff | server/middlewares/auth.middleware.js:31-36 | proceeds exactly when the role is "staff"; otherwise 403 "Access denied. Staff only." |
| AuthMiddleware.HasValidRole | server/middlewares/auth.middleware.js:39-44 | proceeds exactly when the role is customer or staff, so whenever either gate above proceeds; otherwise 403 "Invalid role" |
| AuthMiddleware.Admit | server/middlewares/auth.middleware.js:4-44 | a token failure is answered before any role check; after a verified token the answer is the route's role gate on the decoded user, so the request goes through exactly when that gate passes; an admitted request carries the verified user, who always has a valid role |
| AuthController.MatchesEmailPattern | server/controllers/AuthController.js:15-16 | the unanchored `test`: somewhere in the text an '@' after a character, then a '.' with characters on both sides, and no line terminator where `.` matches; a match has an '@' with one character before it and at least three after |
| AuthController.EmailPatternShape | server/controllers/AuthController.js:15-18 | an address the pattern accepts has at least five characters and contains '@' and '.' |
| AuthController.EmailPatternAccepts | server/controllers/AuthController.js:15-18 | the unanchored pattern accepts "a@b.c", text around an address, and doubled '@' and '.' |
| AuthController.AcceptsPlainAddress | server/controllers/AuthController.js:15-16 | the pattern accepts "a@b.c" |
| AuthController.AcceptsSurroundedAddress | server/controllers/AuthController.js:15-16 | the unanchored pattern accepts an address with text before and after it |
| AuthController.AcceptsRepeatedSeparators | server/controllers/AuthController.js:15-16 | the pattern accepts "a@b@c..d", whose middle part holds '@' and '.' |
| AuthController.EmailPatternRejects | server/controllers/AuthController.js:15-18 | it rejects "a@b", "@b.c", and a line break where a `.` must match |
| AuthController.MatchAt | server/controllers/AuthController.js:15-16 | positions of an '@' and a later '.' with the required characters around them make the pattern match |
| AuthController.FindConflict | server/controllers/AuthController.js:40-42 | nothing is found exactly when no stored user shares the username or the email; what is found is the first stored user that shares one of them |
| AuthController.Register | server/controllers/AuthController.js:7-65 | the first failing check decides the error, in the order presence, email pattern, username length in [3, 30], password length at least 6, role; a request passing them all succeeds exactly when no stored user shares the username or email; otherwise it gets 409 with "Username already exists." when the first matching user has the username and "Email already exists." when not; success stores the password hashed |
| AuthController.ClaimsOf | server/controllers/AuthController.js:87-93 | the token payload carries the stored id, username, role and email, and passes the any-valid-role gate exactly when the stored role is customer or staff |
| AuthController.RegisteredUserPassesRoleGate | server/controllers/AuthController.js:34-36 | the token of a registered user passes the any-valid-role gate, and exactly one of the customer and staff gates, the customer one exactly when it registered as customer |
| AuthController.ConflictReportsFirstMatch | server/controllers/AuthController.js:44-49 | the 409 message follows the first matching user: with the email held by an earlier user, a taken username is reported as "Email already exists." |
| AuthController.FindByEmail | server/controllers/AuthController.js:77 | nothing is found exactly when no stored user has the email; what is found is the first stored user with it |
| AuthController.Login | server/controllers/AuthController.js:68-104 | a missing email or password gives 400; once both are present it succeeds exactly when a stored user has the email and the password matches its hash, and every other case is 401 "Invalid credentials."; the session carries the token signed over that user and the user's name, email and role |
| AuthController.LoginDoesNotRevealUnknownEmail | server/controllers/AuthController.js:77-85 | an unknown email and a wrong password get the same 401 answer |
| OrderModel.IsFinal | server/routes/OrderRoutes.js:398 | the guard `completed` or `delivered`, repeated before an unlock; a final status is a valid status and never the `PLACED` of a new order |
| OrderModel.NewOrder | server/routes/OrderRoutes.js:109-110 | a new order is locked, has status `PLACED` and no payment collected, keeps the items and customer, and is not final |
| CartRules.FindLine | server/routes/OrderRoutes.js:50-52 | the index of the first line of the product, or -1 when there is none |
| CartRules.AddItem | server/routes/OrderRoutes.js:32-72 | missing fields (a missing or empty product id, a missing quantity or a quantity of 0, as `!productId || !quantity` reads them) get the fields message; then a negative quantity and an unknown product fail, in that order (404 for the unknown product, 400 otherwise); a known product is added exactly when its stock covers the existing plus the requested quantity; an existing line that the stock cannot cover is refused with the combined quantity and the stock, and a new line with the requested quantity and the stock; an existing line gets the summed quantity, and otherwise a new line is appended |
| CartRules.AddItems | server/routes/OrderRoutes.js:32-73 | the item loop: no items keep the cart; a successful loop keeps every existing line's product in place and adds at most one line per item; a failure is one of the per-item refusals |
| CartRules.AddItemsAppend | server/routes/OrderRoutes.js:32-73 | the loop over two runs of items is the loop over the first continued with the second, and a failure in the first ends it |
| CartRules.AddItemsStopsAtFirstFailure | server/routes/OrderRoutes.js:32-73 | a refused add answers with the refusal of the first failing item, checked against the cart the items before it produced |
| CartRules.AddToCart | server/routes/OrderRoutes.js:22-24 | missing or empty `items` fails first; otherwise the items are merged in order |
| CartRules.FindLineAfterUpdate | server/routes/OrderRoutes.js:63 | raising a line's quantity moves no product's first line |
| CartRules.FindLineAfterAppend | server/routes/OrderRoutes.js:71 | appending a line gives a first line only to a product that had none |
| CartRules.AddItemQuantities | server/routes/OrderRoutes.js:50-71 | one add raises the product's quantity by the request, within its stock, and leaves every other product's quantity alone |
| CartRules.AddItemKeepsWellFormed | server/routes/OrderRoutes.js:50-71 | one add keeps one line per product and positive quantities |
| CartRules.AddItemsKeepsWellFormed | server/routes/OrderRoutes.js:32-73 | a successful add keeps one line per product, however often the request repeats a product |
| CartRules.AddItemsAccumulates | server/routes/OrderRoutes.js:32-73 | after a successful add, each product's quantity is its old quantity plus everything requested for it |
| CartRules.RequestedAbsent | server/routes/OrderRoutes.js:32-33 | nothing is requested for a product no item names |
| CartRules.AddItemsWithinStock | server/routes/OrderRoutes.js:54-71 | after a successful add, every requested product's quantity is within its stock |
| CartRules.AddItemsRejectsBadItem | server/routes/OrderRoutes.js:35-48 | an item with missing fields, a non-positive quantity or an unknown product makes the whole add fail |
| CartRules.RemoveProduct | server/routes/OrderRoutes.js:182 | no line of the product remains, and every remaining line was there before |
| CartRules.RemoveProductKeepsOthers | server/routes/OrderRoutes.js:182 | the other lines stay in their order, each as often as before |
| CartRules.RemoveProductQuantities | server/routes/OrderRoutes.js:182 | the removed product's quantity becomes 0 and the others keep theirs |
| CartRules.RemoveProductIdempotent | server/routes/OrderRoutes.js:182 | removing a product twice is removing it once |
| CartRules.RemoveProductKeepsWellFormed | server/routes/OrderRoutes.js:182 | remove keeps the cart well formed |
| Checkout.Available | server/routes/OrderRoutes.js:102 | the `!product || product.inStock < item.quantity` check fails for an unknown product and passes only when the debit leaves the stock non-negative |
| Checkout.Debit | server/routes/OrderRoutes.js:105-106 | the item's product loses the quantity from its stock, keeping price and owner; no other product changes |
| Checkout.DebitKeepsStockNonNegative | server/routes/OrderRoutes.js:102-105 | a debit the stock covers leaves no stock negative |
| Checkout.ReserveStep | server/routes/OrderRoutes.js:100-107 | one pass of the item loop: an uncovered item ends the loop there, and a covered one is debited before the loop goes on with the next item |
| Checkout.ReserveAll | server/routes/OrderRoutes.js:100-107 | the item loop keeps the set of products, and a rejection names an item the stock at that moment does not cover |
| Checkout.ReservedDebitsTotals | server/routes/OrderRoutes.js:100-107 | after a successful loop each product's stock is its old stock minus the total ordered for it |
| Checkout.RejectedKeepsEarlierDebits | server/routes/OrderRoutes.js:100-107 | a loop stopped at item k leaves exactly the stock of the first k items' debits: there is no rollback |
| Checkout.ReserveKeepsStockNonNegative | server/routes/OrderRoutes.js:102-105 | no stock goes below zero, whichever way the loop ends |
| Checkout.NegativeQuantityRaisesStock | server/routes/OrderRoutes.js:102-105 | a negative quantity passes the check and raises the stock |
| Checkout.CheckoutScenario | server/routes/OrderRoutes.js:100-107 | 2 of A (stock 5) and 1 of B (stock 1) succeed and leave A at 3 and B at 0 |
| Checkout.CheckoutScenarioOutOfStock | server/routes/OrderRoutes.js:100-107 | with B at 0 the loop stops at B, and A stays debited to 3 |
| StaffScope.ProductInOwnScopeOnly | server/routes/OrderRoutes.js:248-249 | a product is among the products `Product.find({ staffId })` returns for exactly one staff member, the one it is assigned to |
| StaffScope.StaffOrders | server/routes/OrderRoutes.js:216-238 | empty when the staff member owns no products; otherwise exactly the stored orders, unchanged, that have an item whose product the staff member owns |
| StaffScope.FilterOwned | server/routes/OrderRoutes.js:265-267 | only owned items, never more than the order has |
| StaffScope.FilterOwnedIsOwnedSubsequence | server/routes/OrderRoutes.js:265-273 | the staff items are the owned items in their order and with their multiplicity |
| StaffScope.FilterOwnedNonEmptyIffTouches | server/routes/OrderRoutes.js:380-388 | there are staff items exactly when an item of the order is owned |
| StaffScope.Total | server/routes/OrderRoutes.js:276-282 | the sum of price times quantity over the items, never negative when prices and quantities are not |
| StaffScope.TotalAppend | server/routes/OrderRoutes.js:276-282 | the total of two runs of items is the sum of their totals |
| StaffScope.StaffTotalAtMostOrderTotal | server/routes/OrderRoutes.js:276-282 | with non-negative prices and quantities, 0 <= staffTotal <= orderTotal |
| StaffScope.ViewItem | server/routes/OrderRoutes.js:300-308 | an item's view carries its product, quantity, the product's price and stock, a subtotal of price times quantity, and whether it is a staff product |
| StaffScope.ViewItems | server/routes/OrderRoutes.js:300-318 | one view per item, in order |
| StaffScope.StaffOrderDetail | server/routes/OrderRoutes.js:241-328 | 403 without products, 404 for an unknown order, 500 when an item's product is gone, 403 exactly when no item is owned; a detail is returned exactly when none of these applies; it has every item's view, the owned items' views and their count, both totals, a status of "pending" in place of an empty one, and 0 < staffRelatedItems <= totalItems |
| StaffScope.Access | server/routes/OrderRoutes.js:439-462 | the shared ownership guard: 403 without products, 404 for an unknown order, 403 for an order without an owned item; it passes exactly when the order has an owned item |
| StaffScope.StatusUpdate | server/routes/OrderRoutes.js:345-429 | a missing status, then an invalid one, then the ownership guard, then the lock guard, then the final-status guard decide the error (404 for an unknown order, 403 for the ownership refusals, 400 otherwise); it succeeds exactly when the status is valid, access is granted, and the order is neither locked nor final; success changes the status only |
| StaffScope.LockUpdate | server/routes/OrderRoutes.js:432-487 | fails exactly when the ownership guard fails; otherwise the order is locked whatever its status, with nothing else changed |
| StaffScope.UnlockUpdate | server/routes/OrderRoutes.js:490-552 | after the ownership guard, refused with 400 exactly for a completed or delivered order; otherwise only `locked` is cleared |
| StaffScope.Apply | server/routes/OrderRoutes.js:405-412 | a staff request writes back at most the one order it names |
| StaffScope.LockIdempotent | server/routes/OrderRoutes.js:464-472 | locking twice leaves the orders as locking once |
| StaffScope.LockedRefusesStatus | server/routes/OrderRoutes.js:390-395 | a locked order refuses every status update and stays unchanged |
| StaffScope.FrozenStaysFrozen | server/routes/OrderRoutes.js:390-402 | a locked order with a completed or delivered status is not changed by any sequence of status updates, locks and unlocks |
| StaffScope.UnlockThenUpdate | server/routes/OrderRoutes.js:522-537 | after a successful unlock, the same staff member can set any valid status |
| StaffScope.FinalStatusIsTerminal | server/routes/OrderRoutes.js:398-402 | after an update to completed or delivered, a further status update and an unlock both fail |
| StaffScope.OwnershipScenario | server/routes/OrderRoutes.js:265-282 | for an order of P1 (owned) and P2 (not owned), the staff items are only P1's line, the staff total is 20.00 and the order total 40.00 |
| OrderStore.CartOf | server/routes/OrderRoutes.js:26-30 | the stored cart when the customer has one, otherwise a new empty cart; when every stored cart is well formed, so is the cart the loop starts from |
| OrderStore.Store.AddToCart | server/routes/OrderRoutes.js:16-86 | the loop computes the add-to-cart rule over the stored cart; the cart is stored only on success; every cart stays well formed and nothing else changes |
| OrderStore.Store.RemoveFromCart | server/routes/OrderRoutes.js:170-195 | 404 without a cart; otherwise the cart becomes the remove rule's result |
| OrderStore.Store.ClearCart | server/routes/OrderRoutes.js:198-208 | the customer's cart is gone, whether or not there was one, and nothing else changes |
| OrderStore.Store.CreateOrder | server/routes/OrderRoutes.js:90-123 | the stock becomes the item loop's result even on failure, and a failure answers 400; an order is created exactly when every item passed, under a fresh id, locked with status `PLACED`; carts are untouched and stock stays non-negative |
| OrderStore.Store.StaffCreateOrder | server/routes/OrderRoutes.js:331-342 | the order is stored as sent, with the schema defaults, under a fresh id; stock and carts are untouched |
| OrderStore.Store.UpdateStatus | server/routes/OrderRoutes.js:345-429 | the guarded status update, written back only on success |
| OrderStore.Store.LockOrder | server/routes/OrderRoutes.js:432-487 | the guarded lock, written back only on success |
| OrderStore.Store.UnlockOrder | server/routes/OrderRoutes.js:490-552 | the guarded unlock, written back only on success |

## Left out

- Express and Mongoose plumbing is not modelled: routing, the `populate` joins, response shaping and logging. Store reads and writes are map updates.
- Each handler is one atomic step. The race between concurrent order creations is not modelled.
- Token verification, password hashing and comparison, and token signing are parameters. Secrets and token expiry are not modelled.
- Timestamps (`createdAt`, `updatedAt`) are not modelled.
- Prices are integer cents. The floating-point amounts and `toFixed(2)` formatting are not modelled.
- Request fields are strings, and item ids are always present. Two paths of the code are therefore not modelled:
  - A numeric `username` or `password` in registration has no `.length`, so the length checks pass. A numeric username such as `12345` is then registered as "12345", and `12` reaches the schema, which answers 500. Every numeric password is refused by the hash function, so the code answers 500 and registers no one; for the same text the model answers 400 or success.
  - An order item without `productId` in create order finds no product and is answered 400, possibly after earlier items were debited.
- Quantities are integers. Non-numeric quantities are not modelled: a string, or a missing quantity in create order. Neither is the schema's storing of order quantities as strings.
- Ids are plain strings, and an order id is a number from a counter. Consequences:
  - An id that is not a valid ObjectId gives a 500 in the code, and the model does not have such ids.
  - The code compares a stored line's id with the request's id as text. An id spelled differently but naming the same product would get a second line; with plain strings this cannot happen.
  - An order created by staff can hold an item without a product id. The code then throws (500) in status update, lock and unlock when it reads that id; every modelled item has an id.
- Reading the customer is not modelled. An order whose customer user does not exist makes the detail view throw (500). The update, lock and unlock responses throw too, after the change is written.
- Lengths are counted in characters, not UTF-16 code units.
- The schema's own checks are not modelled: trimming, uniqueness, and the enum on status that `findByIdAndUpdate` does not apply. Neither are Mongoose cast errors on a staff-created order.
- `GET /cart`, `GET /customer/orders` and `GET /:id` are not modelled. They are pass-through reads without rules.
- server/models/Cart.js is not part of this model. A cart is a sequence of (product id, quantity) lines stored per customer.
- The React client, its stored session and its route guard are not modelled. Only the role helpers are.
- The item views of the detail answer leave out the product name, description and category. Staff items use the same view as all items.
