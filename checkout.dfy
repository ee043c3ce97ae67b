/** The checkout engine of the order controller: placing an order from a
    cart inside one transaction, cancelling an order with its stock given
    back, and listing a user's orders newest first. */
module Checkout {
  import opened Common
  import opened Store
  import Listing

  /** One entry of the cart in a checkout request. */
  datatype CartItem = CartItem(productId: int, quantity: int)

  // ---------------------------------------------------------------------
  // Specification of checkout

  /** How much of product `pid` the entries of `items` ask for together. */
  function Demand(items: seq<CartItem>, pid: int): int
  {
    if items == [] then 0
    else
      var last := items[|items| - 1];
      Demand(items[..|items| - 1], pid) + (if last.productId == pid then last.quantity else 0)
  }

  /** Entry `k` passes the checks of the checkout loop: its product exists,
      and the stock left once the entries before it are taken covers it. */
  predicate Fits(products: map<int, Product>, items: seq<CartItem>, k: int)
    requires 0 <= k < |items|
  {
    var pid := items[k].productId;
    pid in products && items[k].quantity <= products[pid].stock - Demand(items[..k], pid)
  }

  predicate AllFit(products: map<int, Product>, items: seq<CartItem>)
  {
    forall k :: 0 <= k < |items| ==> Fits(products, items, k)
  }

  /** Entry `k` is the first entry that fails the checks. */
  predicate FirstMisfit(products: map<int, Product>, items: seq<CartItem>, k: int)
  {
    && 0 <= k < |items|
    && !Fits(products, items, k)
    && forall j :: 0 <= j < k ==> Fits(products, items, j)
  }

  /** The error reported when entry `k` is the first that fails. */
  function MisfitError(products: map<int, Product>, items: seq<CartItem>, k: int): Error
    requires 0 <= k < |items|
  {
    if items[k].productId in products then InsufficientStock else ProductNotFound
  }

  /** The product table once every entry's quantity is taken from its stock. */
  function Debited(products: map<int, Product>, items: seq<CartItem>): map<int, Product>
  {
    map pid | pid in products :: products[pid].(stock := products[pid].stock - Demand(items, pid))
  }

  /** The order lines for the entries, each with the unit price in the table. */
  function LinesFor(products: map<int, Product>, items: seq<CartItem>): seq<OrderItem>
    requires forall k :: 0 <= k < |items| ==> items[k].productId in products
  {
    seq(|items|, k requires 0 <= k < |items| =>
      OrderItem(items[k].productId, items[k].quantity, products[items[k].productId].price))
  }

  /** The cart entries that order lines record. */
  function Requests(lines: seq<OrderItem>): seq<CartItem>
  {
    seq(|lines|, k requires 0 <= k < |lines| => CartItem(lines[k].productId, lines[k].quantity))
  }

  /** The product table once every line's quantity is given back to its stock. */
  function Credited(products: map<int, Product>, lines: seq<OrderItem>): map<int, Product>
  {
    map pid | pid in products :: products[pid].(stock := products[pid].stock + Demand(Requests(lines), pid))
  }

  // ---------------------------------------------------------------------
  // Properties of the specification

  lemma DemandStep(items: seq<CartItem>, i: int, pid: int)
    requires 0 <= i < |items|
    ensures Demand(items[..i + 1], pid)
         == Demand(items[..i], pid) + (if items[i].productId == pid then items[i].quantity else 0)
  {
    assert items[..i + 1][..i] == items[..i];
  }

  /** A product no entry names is asked for in no quantity. */
  lemma {:induction false} DemandOfAbsent(items: seq<CartItem>, pid: int)
    requires forall k :: 0 <= k < |items| ==> items[k].productId != pid
    ensures Demand(items, pid) == 0
  {
    if items != [] {
      DemandOfAbsent(items[..|items| - 1], pid);
    }
  }

  /** With positive quantities, the entry-by-entry checks all pass exactly
      when every entry names an existing product and no product is asked
      for more, in total over the cart, than its stock: repeating a product
      in the cart cannot take more than there is. */
  lemma {:induction false} FitIffWithinStock(products: map<int, Product>, items: seq<CartItem>)
    requires forall k :: 0 <= k < |items| ==> items[k].quantity > 0
    ensures AllFit(products, items) <==>
      forall k :: 0 <= k < |items| ==>
        items[k].productId in products &&
        Demand(items, items[k].productId) <= products[items[k].productId].stock
  {
    if items == [] {
      return;
    }
    var n := |items|;
    var pre := items[..n - 1];
    var last := items[n - 1];
    FitIffWithinStock(products, pre);
    assert items[..n - 1] == pre;
    assert AllFit(products, items) <==> AllFit(products, pre) && Fits(products, items, n - 1) by {
      forall k | 0 <= k < n - 1 ensures Fits(products, items, k) == Fits(products, pre, k) {
        assert items[..k] == pre[..k];
      }
    }
    forall k | 0 <= k < n - 1 ensures pre[k] == items[k] {
    }
  }

  /** After a checkout whose checks all pass, no product named in the cart
      is left with negative stock. */
  lemma {:induction false} DebitedStockNonNegative(products: map<int, Product>, items: seq<CartItem>)
    requires AllFit(products, items)
    ensures forall k :: 0 <= k < |items| ==>
      items[k].productId in Debited(products, items) &&
      Debited(products, items)[items[k].productId].stock >= 0
  {
    if items == [] {
      return;
    }
    var n := |items|;
    var pre := items[..n - 1];
    assert AllFit(products, pre) by {
      forall k | 0 <= k < n - 1 ensures Fits(products, pre, k) {
        assert Fits(products, items, k);
        assert items[..k] == pre[..k];
      }
    }
    DebitedStockNonNegative(products, pre);
    assert Fits(products, items, n - 1);
    assert items[..n - 1] == pre;
    forall k | 0 <= k < n
      ensures Debited(products, items)[items[k].productId].stock >= 0
    {
      var pid := items[k].productId;
      if pid != items[n - 1].productId {
        assert pre[k] == items[k];
      }
    }
  }

  /** Products the cart does not name keep their row. */
  lemma DebitedKeepsOthers(products: map<int, Product>, items: seq<CartItem>, pid: int)
    requires pid in products
    requires forall k :: 0 <= k < |items| ==> items[k].productId != pid
    ensures pid in Debited(products, items) && Debited(products, items)[pid] == products[pid]
  {
    DemandOfAbsent(items, pid);
  }

  /** The lines of an order record exactly the cart it was placed from. */
  lemma RequestsOfLines(products: map<int, Product>, items: seq<CartItem>)
    requires forall k :: 0 <= k < |items| ==> items[k].productId in products
    ensures Requests(LinesFor(products, items)) == items
  {
  }

  /** Giving back an order's lines undoes the stock its checkout took. */
  lemma RestockUndoesDebit(products: map<int, Product>, items: seq<CartItem>)
    requires forall k :: 0 <= k < |items| ==> items[k].productId in products
    ensures Credited(Debited(products, items), LinesFor(products, items)) == products
  {
    RequestsOfLines(products, items);
  }

  /** One more entry taken: the debited table changes only in that entry's
      product, whose stock drops by the entry's quantity. */
  lemma DebitStep(products: map<int, Product>, items: seq<CartItem>, i: int)
    requires 0 <= i < |items| && items[i].productId in products
    ensures var pid := items[i].productId;
      var before := Debited(products, items[..i]);
      Debited(products, items[..i + 1]) == before[pid := before[pid].(stock := before[pid].stock - items[i].quantity)]
  {
    forall pid | true
      ensures Demand(items[..i + 1], pid)
           == Demand(items[..i], pid) + (if items[i].productId == pid then items[i].quantity else 0)
    {
      DemandStep(items, i, pid);
    }
  }

  /** One more entry taken: its line, with the price in the table, is added
      at the end. */
  lemma LinesStep(products: map<int, Product>, items: seq<CartItem>, i: int)
    requires 0 <= i < |items|
    requires forall k :: 0 <= k <= i ==> items[k].productId in products
    ensures LinesFor(products, items[..i + 1])
         == LinesFor(products, items[..i])
          + [OrderItem(items[i].productId, items[i].quantity, products[items[i].productId].price)]
  {
  }

  lemma SubtotalAppend(lines: seq<OrderItem>, line: OrderItem)
    ensures Subtotal(lines + [line]) == Subtotal(lines) + line.price * line.quantity
  {
  }

  /** One more line given back: the credited table changes only in that
      line's product, whose stock rises by the line's quantity. */
  lemma CreditStep(products: map<int, Product>, lines: seq<OrderItem>, i: int)
    requires 0 <= i < |lines| && lines[i].productId in products
    ensures var pid := lines[i].productId;
      var before := Credited(products, lines[..i]);
      Credited(products, lines[..i + 1]) == before[pid := before[pid].(stock := before[pid].stock + lines[i].quantity)]
  {
    var rs := Requests(lines[..i + 1]);
    assert rs[..i] == Requests(lines[..i]);
    forall pid | true
      ensures Demand(rs, pid)
           == Demand(Requests(lines[..i]), pid) + (if lines[i].productId == pid then lines[i].quantity else 0)
    {
      DemandStep(rs, i, pid);
      assert rs[..i + 1] == rs;
    }
  }

  /** Debiting keeps every product row but its stock. */
  lemma DebitedKeepsRows(products: map<int, Product>, items: seq<CartItem>)
    ensures forall pid :: pid in Debited(products, items) <==> pid in products
    ensures forall pid :: pid in Debited(products, items) ==>
      && Debited(products, items)[pid].id == products[pid].id
      && Debited(products, items)[pid].price == products[pid].price
  {
  }

  // ---------------------------------------------------------------------
  // Operations

  /** An order with id `orderId` exists and belongs to `userId`. */
  predicate Owns(orders: map<int, Order>, userId: int, orderId: int)
  {
    orderId in orders && orders[orderId].userId == userId
  }

  /** Only pending and paid orders may be cancelled. */
  predicate Cancellable(status: Status)
  {
    status == Pending || status == Paid
  }

  /** What a checkout transaction has worked out before it commits: the
      product table with the stock taken, the order lines, and the total. */
  datatype Reservation = Reservation(products: map<int, Product>, lines: seq<OrderItem>, total: int)

  /** The body of the checkout transaction, on a snapshot of the product
      table: the entries are checked in order against the stock left by the
      entries before them, and the first one that fails aborts the whole
      transaction with its error. Otherwise every entry's quantity is taken
      from its product's stock, and the lines with the prices read and the
      running total are returned. */
  method Reserve(products: map<int, Product>, items: seq<CartItem>) returns (r: Result<Reservation>)
    ensures r.Ok? <==> AllFit(products, items)
    ensures r.Err? ==>
      exists k :: FirstMisfit(products, items, k) && r.error == MisfitError(products, items, k)
    ensures r.Ok? ==>
      && (forall k :: 0 <= k < |items| ==> items[k].productId in products)
      && r.value.products == Debited(products, items)
      && r.value.lines == LinesFor(products, items)
      && r.value.total == Subtotal(r.value.lines)
  {
    var snapshot := products;
    var total := 0;
    var lines: seq<OrderItem> := [];
    var i := 0;
    assert items[..0] == [];
    while i < |items|
      invariant 0 <= i <= |items|
      invariant forall j :: 0 <= j < i ==> Fits(products, items, j)
      invariant forall j :: 0 <= j < i ==> items[j].productId in products
      invariant snapshot == Debited(products, items[..i])
      invariant lines == LinesFor(products, items[..i])
      invariant total == Subtotal(lines)
    {
      var item := items[i];
      DebitedKeepsRows(products, items[..i]);
      if item.productId !in snapshot {
        assert FirstMisfit(products, items, i);
        return Err(ProductNotFound);
      }
      var product := snapshot[item.productId];
      if product.stock < item.quantity {
        assert FirstMisfit(products, items, i);
        return Err(InsufficientStock);
      }
      assert Fits(products, items, i);
      var line := OrderItem(item.productId, item.quantity, product.price);
      total := total + product.price * item.quantity;
      SubtotalAppend(lines, line);
      snapshot := snapshot[item.productId := product.(stock := product.stock - item.quantity)];
      DebitStep(products, items, i);
      LinesStep(products, items, i);
      lines := lines + [line];
      i := i + 1;
    }
    assert items[..i] == items;
    r := Ok(Reservation(snapshot, lines, total));
  }

  /** Places an order for `userId` from the cart `items`. A missing or empty
      cart is refused; otherwise the transaction either aborts with the
      error of the first entry that fails, and nothing in the store
      changes, or commits: every stock is debited and one PAID order with
      the lines and total is stored and returned. */
  method CreateOrder(db: Database, userId: int, items: Option<seq<CartItem>>, now: int)
    returns (r: Result<Order>)
    requires db.Valid()
    modifies db
    ensures db.Valid()
    ensures r == Err(EmptyCart) <==> items.None? || items.value == []
    ensures r.Err? ==> unchanged(db)
    ensures items.Some? && items.value != [] ==> (r.Ok? <==> AllFit(old(db.products), items.value))
    ensures items.Some? && r.Err? && r.error != EmptyCart ==>
      exists k :: FirstMisfit(old(db.products), items.value, k)
               && r.error == MisfitError(old(db.products), items.value, k)
    ensures r.Ok? ==>
      && items.Some? && AllFit(old(db.products), items.value)
      && (forall k :: 0 <= k < |items.value| ==> items.value[k].productId in old(db.products))
      && var lines := LinesFor(old(db.products), items.value);
      && r.value == Order(old(db.nextId), userId, Subtotal(lines), Paid, now, lines)
      && db.products == Debited(old(db.products), items.value)
      && db.orders == old(db.orders)[r.value.id := r.value]
      && db.users == old(db.users)
      && db.nextId == old(db.nextId) + 1
  {
    if items.None? || items.value == [] {
      return Err(EmptyCart);
    }
    var reserved := Reserve(db.products, items.value);
    if reserved.Err? {
      assert reserved.error != EmptyCart;
      return Err(reserved.error);
    }
    var plan := reserved.value;
    DebitedKeepsRows(db.products, items.value);
    var order := Order(db.nextId, userId, plan.total, Paid, now, plan.lines);
    assert forall k :: 0 <= k < |order.items| ==> order.items[k].productId in plan.products;
    db.products := plan.products;
    db.orders := db.orders[order.id := order];
    db.nextId := db.nextId + 1;
    r := Ok(order);
  }

  /** The body of the cancel transaction, on a snapshot of the product
      table: each line's quantity is added back to its product's stock. */
  method Restock(products: map<int, Product>, lines: seq<OrderItem>) returns (r: map<int, Product>)
    requires forall k :: 0 <= k < |lines| ==> lines[k].productId in products
    ensures r == Credited(products, lines)
  {
    r := products;
    var i := 0;
    assert lines[..0] == [];
    while i < |lines|
      invariant 0 <= i <= |lines|
      invariant r == Credited(products, lines[..i])
    {
      var line := lines[i];
      assert line.productId in r;
      var product := r[line.productId];
      r := r[line.productId := product.(stock := product.stock + line.quantity)];
      CreditStep(products, lines, i);
      i := i + 1;
    }
    assert lines[..i] == lines;
  }

  /** Cancels order `orderId` of `userId`: gives every line's quantity back
      to its product's stock and marks the order CANCELLED, in one
      transaction. */
  method CancelOrder(db: Database, userId: int, orderId: int) returns (r: Outcome)
    requires db.Valid()
    modifies db
    ensures db.Valid()
    ensures r == Fail(NotFound) <==> !Owns(old(db.orders), userId, orderId)
    ensures r == Fail(InvalidState) <==>
      Owns(old(db.orders), userId, orderId) && !Cancellable(old(db.orders)[orderId].status)
    ensures r == Done <==>
      Owns(old(db.orders), userId, orderId) && Cancellable(old(db.orders)[orderId].status)
    ensures r.Fail? ==> unchanged(db)
    ensures r.Done? ==>
      && var order := old(db.orders)[orderId];
      && db.products == Credited(old(db.products), order.items)
      && db.orders == old(db.orders)[orderId := order.(status := Cancelled)]
      && db.users == old(db.users)
      && db.nextId == old(db.nextId)
  {
    if !Owns(db.orders, userId, orderId) {
      return Fail(NotFound);
    }
    var order := db.orders[orderId];
    if !Cancellable(order.status) {
      return Fail(InvalidState);
    }
    var restocked := Restock(db.products, order.items);
    db.products := restocked;
    db.orders := db.orders[orderId := order.(status := Cancelled)];
    r := Done;
  }

  /** The orders of `userId` in `s`, each as often as in `s`. */
  function OwnedBy(s: seq<Order>, userId: int): (r: seq<Order>)
    ensures forall o :: multiset(r)[o] == if o.userId == userId then multiset(s)[o] else 0
    ensures forall o :: o in r <==> o in s && o.userId == userId
  {
    if s == [] then []
    else
      var rest := OwnedBy(s[1..], userId);
      assert s == [s[0]] + s[1..];
      assert forall o :: multiset(s)[o] == multiset([s[0]])[o] + multiset(s[1..])[o];
      assert forall o :: o in s <==> o == s[0] || o in s[1..];
      if s[0].userId == userId then
        assert forall o :: multiset([s[0]] + rest)[o] == multiset([s[0]])[o] + multiset(rest)[o];
        [s[0]] + rest
      else rest
  }

  function OrderId(o: Order): int
  {
    o.id
  }

  function OrderTime(o: Order): int
  {
    o.createdAt
  }

  /** What the caller's order listing returns: every order of `userId`
      exactly once and no other order, newest first. `bound` is above every
      order id. */
  function MyOrders(orders: map<int, Order>, bound: int, userId: int): (r: seq<Order>)
    requires forall id :: id in orders ==> 0 <= id < bound && orders[id].id == id
    ensures forall o :: multiset(r)[o] == if o in orders.Values && o.userId == userId then 1 else 0
    ensures forall o :: o in r <==> o in orders.Values && o.userId == userId
    ensures forall i, j :: 0 <= i < j < |r| ==> r[i].createdAt >= r[j].createdAt
  {
    var rows := Listing.Rows(orders, 0, bound, OrderId);
    assert forall o :: o in orders.Values <==> o in rows by {
      forall id | id in orders ensures orders[id] in rows {
        assert 0 <= id < bound;
      }
    }
    Listing.AscendingCountsOnce(rows, OrderId);
    Listing.SortedNewestFirst(OwnedBy(rows, userId), OrderTime)
  }

  // ---------------------------------------------------------------------
  // Clients: what callers can conclude from the contracts alone

  /** Cancelling the same order twice: the second attempt is refused. */
  method CancelTwice(db: Database, userId: int, orderId: int) returns (first: Outcome, second: Outcome)
    requires db.Valid()
    modifies db
    ensures first == Done ==> second == Fail(InvalidState)
  {
    first := CancelOrder(db, userId, orderId);
    second := CancelOrder(db, userId, orderId);
  }

  /** Placing an order and then cancelling it leaves the stock as it was. */
  method CheckoutThenCancel(db: Database, userId: int, items: seq<CartItem>, now: int)
    returns (placed: Result<Order>, cancelled: Option<Outcome>)
    requires db.Valid()
    modifies db
    ensures placed.Ok? ==> cancelled == Some(Done) && db.products == old(db.products)
    ensures placed.Err? ==> cancelled == None && unchanged(db)
  {
    placed := CreateOrder(db, userId, Some(items), now);
    if placed.Err? {
      cancelled := None;  // no order was placed, so no cancel is attempted
      return;
    }
    ghost var before := old(db.products);
    var order := placed.value;
    assert order.items == LinesFor(before, items);
    var outcome := CancelOrder(db, userId, order.id);
    cancelled := Some(outcome);
    RestockUndoesDebit(before, items);
  }
}
