# Checkout, catalog and credentials of a small e-commerce backend

This project models, in Dafny, the three controllers of a REST shop
backend that holds users, products and orders in a relational database:

- the **checkout engine** (`src/controllers/orderController.js`):
  `createOrder` walks the cart in order inside one transaction, re-reading
  each product, refusing the whole request on a missing product or short
  stock, debiting stock, summing `price * quantity` and storing one `PAID`
  order whose lines record the price read; `cancelOrder` gives each line's
  quantity back and marks the order `CANCELLED`; `getMyOrders` lists the
  caller's orders newest first;
- the **catalog** (`src/controllers/productController.js`): listing newest
  first, create with required fields, partial update, photo-path rule,
  delete refused for a missing product or one with order history;
- the **credential store** (`src/controllers/authController.js`):
  registration with required fields, unique email, salted hash and the
  `CUSTOMER` role, answering with public fields only; login that refuses an
  unknown email and a wrong password with the same status and error kind
  and yields token claims.

The database is the class `Store.Database`: three maps (products, users,
orders, keyed by id) and one id counter. Its invariant `Valid()` says ids
match keys and lie below the counter, emails are unique, every order line
names an existing product (the foreign key that makes deletion fail) and
every order's total is the subtotal of its lines. Each controller operation
is a method taking the database handle (`modifies db`) and returning a
`Result`/`Outcome` whose error kinds stand for the HTTP answers. A
transaction is modelled as work on a local snapshot of the product map,
committed by assigning the fields at the end, so every failure path returns
before anything is written and its contract says `unchanged(db)`. The
bodies of the two transactions are methods of their own on that snapshot,
`Checkout.Reserve` (checkout) and `Checkout.Restock` (cancel), which the
controller methods call before committing.

The checkout is specified independently of its loop: `Demand(items, pid)`
is the total quantity the cart asks of a product, entry `k` *fits* when its
product exists and the stock minus the demand of the entries before it
covers its quantity, `Debited` is the product table with every demand taken
off and `LinesFor` the order lines with the price in the table. The method
is proved against these, and the lemmas relate them: with positive
quantities every entry fits exactly when each named product's total demand
is within its stock (so a product repeated in the cart cannot be
over-allocated), stocks of cart products never go negative, products not in
the cart keep their rows, and giving an order's lines back (`Credited`)
undoes the debit exactly.

The clock (`createdAt`), the bcrypt salt, and the password library
(`Auth.Crypto`: `hash` and `compare` as function values, with
`Auth.Sound` stating that a password matches its own hash) are parameters.
Prices are whole numbers (cents).

The model follows the code where it is more permissive than its REST
contract suggests: the code accepts any price and stock on create and update (no
non-negativity check), so `stock` is an `int` and non-negative stock is
proved only for the products a checkout touches; and login with a missing
email or password answers with a 400 (`MissingFields`) before any lookup.
The code never checks that a cart quantity is positive: `CreateOrder` is
specified for every quantity, and positivity is a precondition only of the
lemma `Checkout.FitIffWithinStock`, which needs it.

## Model

| member | source | states |
|---|---|---|
| `Checkout.Reserve` | src/controllers/orderController.js:13-42 | the checkout transaction's body succeeds exactly when every entry fits; on failure the error is that of the first entry that does not fit (`ProductNotFound` for a missing product, `InsufficientStock` otherwise); on success it returns the table with every demand debited, one line per entry in input order with the price read, and the subtotal of those lines as total |
| `Checkout.Restock` | src/controllers/orderController.js:108-116 | the cancel transaction's body adds every line's quantity back to its product's stock (`Credited`) |
| `Checkout.CreateOrder` | src/controllers/orderController.js:4-57 | a missing or empty cart is refused with `EmptyCart`; otherwise it succeeds exactly when every entry fits, and on failure the error is that of the first entry that does not fit (`ProductNotFound` or `InsufficientStock`); every failure leaves the store unchanged; on success stock becomes `Debited(old products, cart)`, one `PAID` order for the caller under a fresh id is stored with one line per entry in input order (product, quantity, price read) and total equal to the subtotal of those lines, and users are unchanged |
| `Checkout.FitIffWithinStock` | src/controllers/orderController.js:17-35 | for positive quantities, all entries pass the loop's checks iff every entry names an existing product and the total demand for it is at most its stock: duplicate lines cannot over-allocate |
| `Checkout.DebitedStockNonNegative` | src/controllers/orderController.js:26-35 | after a checkout whose checks all pass, every product named in the cart has stock at least 0 |
| `Checkout.DebitedKeepsOthers` | src/controllers/orderController.js:32-35 | a product the cart does not name keeps its row unchanged |
| `Checkout.DemandOfAbsent` | src/controllers/orderController.js:32-35 | a product no entry names is debited by 0 |
| `Checkout.RequestsOfLines` | src/controllers/orderController.js:37-41 | the order lines record exactly the cart's products and quantities, entry by entry |
| `Checkout.RestockUndoesDebit` | src/controllers/orderController.js:108-116 | crediting an order's lines back onto the debited table gives the table before checkout |
| `Checkout.CancelOrder` | src/controllers/orderController.js:90-122 | fails `NotFound` iff no order with that id belongs to the caller, fails `InvalidState` iff it does but is neither `PENDING` nor `PAID`, succeeds otherwise; failures change nothing; success adds each line's quantity back to its product (`Credited`), sets that order's status to `CANCELLED`, and changes no other order, user or the counter |
| `Checkout.CancelTwice` | src/controllers/orderController.js:104-106 | once a cancel succeeds, cancelling the same order again fails with `InvalidState` |
| `Checkout.CheckoutThenCancel` | src/controllers/orderController.js:108-122 | placing an order and cancelling it restores every product row; a failed checkout changes nothing and no cancel is attempted |
| `Checkout.OwnedBy` | src/controllers/orderController.js:74-75 | keeps exactly the orders of the given user, each as often as in the input, and drops every other order |
| `Checkout.MyOrders` | src/controllers/orderController.js:70-82 | lists each stored order of the caller exactly once and no other order, ordered by creation time, newest first |
| `Listing.Rows` | src/controllers/orderController.js:74 | reading a table by id range yields exactly the rows whose keys are in the range, one per key, in strictly ascending key order |
| `Listing.AscendingCountsOnce` | src/controllers/productController.js:6 | a table read with strictly ascending ids holds each row exactly once |
| `Listing.NewestFirstPermutes` | src/controllers/productController.js:6-8 | sorting newest first keeps every row, each as often as before |
| `Listing.NewestFirstDescending` | src/controllers/orderController.js:81 | sorting newest first yields non-increasing creation times |
| `Listing.SortedNewestFirst` | src/controllers/productController.js:6-9 | the sorted listing has the same rows (as a multiset) and is newest first |
| `Catalog.AllProducts` | src/controllers/productController.js:4-9 | the catalog listing holds each stored product exactly once and nothing else, newest first |
| `Catalog.PhotoPath` | src/controllers/productController.js:19-22 | no file gives no photo; a remote `http` path is kept as it is; otherwise the photo is `/uploads/` followed by the stored file name |
| `Catalog.PhotoPathServed` | src/controllers/productController.js:53-56 | every recorded photo is a remote address or lies under `/uploads/` |
| `Catalog.CreateProduct` | src/controllers/productController.js:15-36 | refused with `MissingFields`, changing nothing, iff name, price or stock is omitted; otherwise stores a product under a fresh id with the given fields, the photo path and the creation time, and changes nothing else |
| `Catalog.Merge` | src/controllers/productController.js:61-70 | every field supplied replaces the old value and every omitted one keeps it; the photo changes only when a new one is given; id and creation time are kept |
| `Catalog.MergeNothing` | src/controllers/productController.js:64-68 | an update that supplies nothing leaves the row as it was |
| `Catalog.MergeIdempotent` | src/controllers/productController.js:63-69 | applying the same update twice equals applying it once |
| `Catalog.MergeFullOverrides` | src/controllers/productController.js:62-69 | an update supplying every field and a photo writes the same row whatever the old values |
| `Catalog.UpdateProduct` | src/controllers/productController.js:48-70 | fails `NotFound`, changing nothing, iff the product does not exist; otherwise replaces only that row with the merge of the old row, the changes and the new photo path |
| `Catalog.DeleteProduct` | src/controllers/productController.js:80-93 | fails `NotFound` iff the product is missing, fails `HasOrderHistory` and keeps the product iff an order line refers to it; otherwise removes only that product |
| `Auth.FindByEmail` | src/controllers/authController.js:56-58 | finds the one user with exactly that email, or none iff no user has it |
| `Auth.Register` | src/controllers/authController.js:6-40 | refused with `MissingFields` iff name, email or password is omitted, with `EmailTaken` iff the email is already used, changing nothing; otherwise stores one user under a fresh id with role `CUSTOMER` and the salted hash of the password, and answers with its id, name and email only |
| `Auth.Login` | src/controllers/authController.js:48-84 | refused with `MissingFields` iff email or password is omitted; otherwise succeeds iff some user has that email and the password matches the stored hash, and both an unknown email and a wrong password give the same `InvalidCredentials`; the token claims are that user's id and role; it reads the user table and changes nothing |
| `Auth.LoginAfterRegister` | src/controllers/authController.js:22-31 | adding a user under an unused email keeps emails unique, and that user can log in with the password whose hash was stored, getting their own id and role |
| `Auth.RegisterThenLogin` | src/controllers/authController.js:64-74 | a new registration always succeeds for an unused email, and logging in right after yields claims with the new id and role `CUSTOMER` |
| `Scenarios.PenScenario` | src/controllers/orderController.js:26-30 | buying 3 of a product priced 10 with stock 5 costs 30 and leaves 2; then asking for 5 fails with `InsufficientStock` and 2 remain |
| `Scenarios.TwoLineCancel` | src/controllers/orderController.js:109-121 | an order of 2 of one product and 3 of another, once cancelled, leaves both stocks as before the order and the order `CANCELLED` |

## Left out

- Prisma client, HTTP request and response objects, status codes and
  logging: outcomes are `Result`/`Outcome` values with an error kind; the
  message texts (including the product name and remaining stock in the
  stock error) are not modelled.
- Unexpected storage failures (the generic 500 answers and the generic
  transaction-failed answer): the in-memory store never fails.
- Concurrency between requests and the database's transaction isolation;
  a transaction is work on a snapshot committed at once. In `cancelOrder`
  the ownership and status checks run before the transaction; the race
  between them is not modelled.
- `parseInt`/`parseFloat` and JavaScript truthiness: a request field is
  either present (`Some`) or absent (`None`); a present `0` or empty
  string, which the code treats as absent, is not modelled. Prices are
  integers (cents), not floating point.
- Auth.Login: the two refusals share status 401 and the error kind
  `InvalidCredentials`, but their message texts differ in the last
  character ("salah." for an unknown email, "salah!" for a wrong password,
  src/controllers/authController.js:61 and :67), so a client can tell them
  apart by the text; the model does not carry message texts and cannot
  state this difference.
- bcrypt internals, JWT signing, the secret and the 24-hour expiry: hashing
  and comparing are function values passed in, the token is its claims.
- The upload middleware (`src/middlewares/uploadMiddleware.js`): storage
  configuration and the generated file name; the uploaded file is a
  `(path, filename)` value.
- Express wiring (`src/index.js`, `src/routes/*.js`) and the
  authentication and administrator checks it chains before the handlers:
  the caller's user id is a parameter.
- Checkout.MyOrders: the product rows the listing attaches to each order
  line are not included; a caller reads them from the product table.
- Order-line ids and their `orderId` column: lines are held inside their
  order.
- Store.Database: one id counter serves all three tables, where the
  database keeps one auto-increment sequence per table.
