/** Two worked checkouts, stated through the operations' contracts alone. */
module Scenarios {
  import opened Common
  import opened Store
  import Catalog
  import Checkout

  /** A pen priced 10 with 5 in stock: buying 3 costs 30 and leaves 2;
      asking for 5 more is refused for stock, and 2 remain. */
  method PenScenario(db: Database, userId: int, now: int)
    returns (first: Result<Order>, second: Result<Order>, pen: int)
    requires db.Valid()
    modifies db
    ensures first.Ok? && first.value.totalPrice == 30 && first.value.status == Paid
    ensures second == Err(InsufficientStock)
    ensures pen in db.products && db.products[pen].stock == 2
  {
    var created := Catalog.CreateProduct(db, Some("Pen"), Some(10), Some(5), None, None, now);
    pen := created.value.id;
    var cart := [Checkout.CartItem(pen, 3)];
    assert Checkout.Fits(db.products, cart, 0) by {
      assert cart[..0] == [];
    }
    first := Checkout.CreateOrder(db, userId, Some(cart), now);
    assert first.value.items == [OrderItem(pen, 3, 10)];
    assert Checkout.Demand(cart, pen) == 3 by {
      assert cart[..0] == [];
    }
    var more := [Checkout.CartItem(pen, 5)];
    assert !Checkout.Fits(db.products, more, 0) by {
      assert more[..0] == [];
    }
    second := Checkout.CreateOrder(db, userId, Some(more), now);
  }

  /** Cancelling an order of 2 of one product and 3 of another gives both
      back and marks the order cancelled. */
  method TwoLineCancel(db: Database, userId: int, a: int, b: int)
    returns (cancelled: Outcome, orderId: int)
    requires db.Valid()
    requires a in db.products && b in db.products && a != b
    requires db.products[a].stock >= 2 && db.products[b].stock >= 3
    modifies db
    ensures cancelled == Done
    ensures db.products == old(db.products)
    ensures orderId in db.orders && db.orders[orderId].status == Cancelled
  {
    var cart := [Checkout.CartItem(a, 2), Checkout.CartItem(b, 3)];
    assert Checkout.AllFit(db.products, cart) by {
      assert cart[..0] == [] && cart[..1] == [cart[0]];
      assert Checkout.Demand(cart[..1], b) == 0;
    }
    var placed := Checkout.CreateOrder(db, userId, Some(cart), 0);
    orderId := placed.value.id;
    cancelled := Checkout.CancelOrder(db, userId, orderId);
    Checkout.RestockUndoesDebit(old(db.products), cart);
  }
}
