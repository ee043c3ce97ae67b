/** The rows the three controllers read and write, and the in-memory store
    that stands for the relational database behind them. */
module Store {
  import opened Common

  datatype Role = Customer | Admin

  /** A user row; `password` holds the stored hash, never the raw password. */
  datatype User = User(id: int, name: string, email: string, password: string, role: Role)

  /** A product row. Prices are whole cents. */
  datatype Product = Product(
    id: int,
    name: string,
    price: int,
    stock: int,
    description: Option<string>,
    photo: Option<string>,
    createdAt: int)

  datatype Status = Pending | Paid | Cancelled

  /** One line of an order: the product, how many, and the unit price read
      when the order was placed. */
  datatype OrderItem = OrderItem(productId: int, quantity: int, price: int)

  datatype Order = Order(
    id: int,
    userId: int,
    totalPrice: int,
    status: Status,
    createdAt: int,
    items: seq<OrderItem>)

  /** The sum of unit price times quantity over the lines. */
  function Subtotal(lines: seq<OrderItem>): int
  {
    if lines == [] then 0
    else
      var last := lines[|lines| - 1];
      Subtotal(lines[..|lines| - 1]) + last.price * last.quantity
  }

  /** No two users share an email (the column is unique). */
  ghost predicate EmailsUnique(users: map<int, User>)
  {
    forall i, j :: i in users && j in users && users[i].email == users[j].email ==> i == j
  }

  /** Some order line names product `pid`. */
  predicate Referenced(orders: map<int, Order>, pid: int)
  {
    exists oid, k :: oid in orders && 0 <= k < |orders[oid].items| && orders[oid].items[k].productId == pid
  }

  /** Every product an order line names exists (the foreign key). */
  ghost predicate LinesReferToProducts(orders: map<int, Order>, products: map<int, Product>)
  {
    forall oid, k :: oid in orders && 0 <= k < |orders[oid].items| ==> orders[oid].items[k].productId in products
  }

  /** Every order's total is the subtotal of its lines. */
  ghost predicate TotalsMatchLines(orders: map<int, Order>)
  {
    forall oid :: oid in orders ==> orders[oid].totalPrice == Subtotal(orders[oid].items)
  }

  /** The three tables and the counter that hands out fresh ids. */
  class Database {
    var products: map<int, Product>
    var users: map<int, User>
    var orders: map<int, Order>
    var nextId: nat

    ghost predicate Valid()
      reads this
    {
      && 0 < nextId
      && (forall id :: id in products ==> 0 < id < nextId && products[id].id == id)
      && (forall id :: id in users ==> 0 < id < nextId && users[id].id == id)
      && (forall id :: id in orders ==> 0 < id < nextId && orders[id].id == id)
      && EmailsUnique(users)
      && LinesReferToProducts(orders, products)
      && TotalsMatchLines(orders)
    }

    constructor ()
      ensures Valid()
      ensures products == map[] && users == map[] && orders == map[] && nextId == 1
    {
      products, users, orders := map[], map[], map[];
      nextId := 1;
    }
  }
}
