/** The product controller: listing the catalog newest first, and the
    administrator's create, partial update and delete of product rows. */
module Catalog {
  import opened Common
  import opened Store
  import Listing

  /** The file the upload middleware attached to the request: where it was
      stored, and the name it was stored under. */
  datatype Upload = Upload(path: string, filename: string)

  /** The fields of an update request; an omitted field is None. */
  datatype ProductChanges = ProductChanges(
    name: Option<string>,
    price: Option<int>,
    stock: Option<int>,
    description: Option<string>)

  /** Where a product photo is served from: no file gives no photo, a file
      kept by an object store (its path a remote `http...` address) keeps
      that address, and a file kept on local disk is served under
      `/uploads/` by its stored name. */
  function PhotoPath(file: Option<Upload>): (r: Option<string>)
    ensures file.None? ==> r == None
    ensures file.Some? && "http" <= file.value.path ==> r == Some(file.value.path)
    ensures file.Some? && !("http" <= file.value.path) ==> r == Some("/uploads/" + file.value.filename)
  {
    match file
    case None => None
    case Some(f) => Some(if "http" <= f.path then f.path else "/uploads/" + f.filename)
  }

  /** Every photo the catalog records is either a remote address or a path
      under the static `/uploads/` prefix. */
  lemma PhotoPathServed(file: Option<Upload>)
    ensures PhotoPath(file).Some? ==>
      "http" <= PhotoPath(file).value || "/uploads/" <= PhotoPath(file).value
  {
  }

  /** The row an update writes: each field supplied replaces the old value,
      each omitted field keeps it; the photo changes only with a new file. */
  function Merge(p: Product, changes: ProductChanges, photo: Option<string>): (r: Product)
    ensures r.id == p.id && r.createdAt == p.createdAt
    ensures r.name == (if changes.name.Some? then changes.name.value else p.name)
    ensures r.price == (if changes.price.Some? then changes.price.value else p.price)
    ensures r.stock == (if changes.stock.Some? then changes.stock.value else p.stock)
    ensures r.description == (if changes.description.Some? then changes.description else p.description)
    ensures r.photo == (if photo.Some? then photo else p.photo)
  {
    p.(name := changes.name.GetOr(p.name),
       price := changes.price.GetOr(p.price),
       stock := changes.stock.GetOr(p.stock),
       description := if changes.description.Some? then changes.description else p.description,
       photo := if photo.Some? then photo else p.photo)
  }

  /** An update that supplies nothing leaves the row as it was. */
  lemma MergeNothing(p: Product)
    ensures Merge(p, ProductChanges(None, None, None, None), None) == p
  {
  }

  /** Sending the same update twice has the effect of sending it once. */
  lemma MergeIdempotent(p: Product, changes: ProductChanges, photo: Option<string>)
    ensures Merge(Merge(p, changes, photo), changes, photo) == Merge(p, changes, photo)
  {
  }

  /** An update that supplies every field and a photo writes the same row
      whatever the old values were, apart from the id and creation time. */
  lemma MergeFullOverrides(p: Product, q: Product, changes: ProductChanges, photo: Option<string>)
    requires changes.name.Some? && changes.price.Some? && changes.stock.Some?
    requires changes.description.Some? && photo.Some?
    ensures Merge(p, changes, photo).(id := q.id, createdAt := q.createdAt) == Merge(q, changes, photo)
  {
  }

  function ProductId(p: Product): int
  {
    p.id
  }

  function ProductTime(p: Product): int
  {
    p.createdAt
  }

  /** What the catalog listing returns: every product exactly once, newest
      first. `bound` is above every product id. */
  function AllProducts(products: map<int, Product>, bound: int): (r: seq<Product>)
    requires forall id :: id in products ==> 0 <= id < bound && products[id].id == id
    ensures forall p :: multiset(r)[p] == if p in products.Values then 1 else 0
    ensures forall p :: p in r <==> p in products.Values
    ensures forall i, j :: 0 <= i < j < |r| ==> r[i].createdAt >= r[j].createdAt
  {
    var rows := Listing.Rows(products, 0, bound, ProductId);
    assert forall p :: p in products.Values <==> p in rows by {
      forall id | id in products ensures products[id] in rows {
        assert 0 <= id < bound;
      }
    }
    Listing.AscendingCountsOnce(rows, ProductId);
    Listing.SortedNewestFirst(rows, ProductTime)
  }

  /** Adds a product. Name, price and stock are required; without them
      nothing is stored. */
  method CreateProduct(db: Database, name: Option<string>, price: Option<int>, stock: Option<int>,
                       description: Option<string>, file: Option<Upload>, now: int)
    returns (r: Result<Product>)
    requires db.Valid()
    modifies db
    ensures db.Valid()
    ensures r.Err? <==> name.None? || price.None? || stock.None?
    ensures r.Err? ==> r.error == MissingFields && unchanged(db)
    ensures r.Ok? ==>
      && r.value == Product(old(db.nextId), name.value, price.value, stock.value,
                            description, PhotoPath(file), now)
      && db.products == old(db.products)[r.value.id := r.value]
      && db.users == old(db.users) && db.orders == old(db.orders)
      && db.nextId == old(db.nextId) + 1
  {
    var photo := PhotoPath(file);
    if name.None? || price.None? || stock.None? {
      return Err(MissingFields);
    }
    var product := Product(db.nextId, name.value, price.value, stock.value, description, photo, now);
    db.products := db.products[product.id := product];
    db.nextId := db.nextId + 1;
    r := Ok(product);
  }

  /** Updates product `id` with the fields supplied and, when a file comes
      with the request, a new photo. */
  method UpdateProduct(db: Database, id: int, changes: ProductChanges, file: Option<Upload>)
    returns (r: Result<Product>)
    requires db.Valid()
    modifies db
    ensures db.Valid()
    ensures r.Err? <==> id !in old(db.products)
    ensures r.Err? ==> r.error == NotFound && unchanged(db)
    ensures r.Ok? ==>
      && r.value == Merge(old(db.products)[id], changes, PhotoPath(file))
      && db.products == old(db.products)[id := r.value]
      && db.users == old(db.users) && db.orders == old(db.orders)
      && db.nextId == old(db.nextId)
  {
    var photo := PhotoPath(file);
    if id !in db.products {
      return Err(NotFound);
    }
    var updated := Merge(db.products[id], changes, photo);
    db.products := db.products[id := updated];
    r := Ok(updated);
  }

  /** Removes product `id`, unless it does not exist or an order line
      refers to it. */
  method DeleteProduct(db: Database, id: int) returns (r: Outcome)
    requires db.Valid()
    modifies db
    ensures db.Valid()
    ensures r == Fail(NotFound) <==> id !in old(db.products)
    ensures r == Fail(HasOrderHistory) <==> id in old(db.products) && Referenced(old(db.orders), id)
    ensures r == Done <==> id in old(db.products) && !Referenced(old(db.orders), id)
    ensures r.Fail? ==> unchanged(db)
    ensures r.Done? ==>
      && db.products == old(db.products) - {id}
      && db.users == old(db.users) && db.orders == old(db.orders)
      && db.nextId == old(db.nextId)
  {
    if id !in db.products {
      return Fail(NotFound);
    }
    if Referenced(db.orders, id) {
      return Fail(HasOrderHistory);
    }
    db.products := db.products - {id};
    r := Done;
  }
}
