/**
 * The seller's product pages, `edit_product` (POST) and `delete_product`:
 * both are open only to a caller whose `role_id` is 2 and who created the
 * product.
 */
module SellerProducts {
  import opened Wrappers
  import opened Rows
  import opened Models
  import opened Store

  /** The role id the handlers treat as "seller". */
  const SellerRoleId: Id := 2

  /**
   * Redirect outcomes: to the catalogue for a non-seller, 404 for a missing
   * product, to "my products" for someone else's product, and after a
   * commit (`Saved`) or a rollback (`SaveFailed`).
   */
  datatype Reply = NotSeller | NotFound | NotOwner | Saved | SaveFailed

  /**
   * The edit form: name, price in cents, category id, and the raw
   * `is_published` field (`bool(...)` of a present, non-empty value is True).
   */
  datatype ProductForm = ProductForm(name: string, price: Cents, categoryId: Id, published: Option<string>)

  datatype Change = Change(reply: Reply, products: seq<Product>)

  /** The gate both handlers open with: seller role, existing product, own product. */
  function Gate(products: seq<Product>, caller: User, productId: Id): (r: Option<Reply>)
    ensures r.None? <==> caller.roleId == SellerRoleId && FindProduct(products, productId).Some?
                         && products[FindProduct(products, productId).value].createdBy == caller.id
    ensures r == Some(NotSeller) <==> caller.roleId != SellerRoleId
    ensures r == Some(NotFound) <==> caller.roleId == SellerRoleId && FindProduct(products, productId).None?
    ensures r.Some? ==> r.value in {NotSeller, NotFound, NotOwner}
  {
    if caller.roleId != SellerRoleId then Some(NotSeller)
    else match FindProduct(products, productId)
      case None => Some(NotFound)
      case Some(i) => if products[i].createdBy != caller.id then Some(NotOwner) else None
  }

  function PublishedFlag(field: Option<string>): bool
  {
    field.Some? && field.value != ""
  }

  /**
   * `edit_product(product_id)` on POST: past the gate, overwrite the name,
   * price, category and published flag; the commit fails (and rolls back)
   * when the category does not exist, the price does not fit
   * `Numeric(10, 2)` or the name is longer than 100 characters.
   */
  function EditProduct(products: seq<Product>, categories: seq<Category>, caller: User, productId: Id,
                       form: ProductForm): (r: Change)
    ensures Gate(products, caller, productId).Some? ==> r.reply == Gate(products, caller, productId).value
    ensures r.reply == Saved <==>
              && Gate(products, caller, productId).None?
              && FindCategory(categories, form.categoryId).Some?
              && FitsNumeric(form.price)
              && FitsVarchar(form.name, 100)
    ensures r.reply != Saved ==> r.products == products
    ensures r.reply == Saved ==>
              && caller.roleId == SellerRoleId
              && FindProduct(products, productId).Some?
              && var i := FindProduct(products, productId).value;
                 && products[i].createdBy == caller.id
                 && |r.products| == |products|
                 && r.products[i] == products[i].(name := form.name, price := form.price,
                                                   categoryId := form.categoryId,
                                                   isPublished := Some(PublishedFlag(form.published)))
                 && forall j :: 0 <= j < |products| && j != i ==> r.products[j] == products[j]
  {
    match Gate(products, caller, productId)
    case Some(denied) => Change(denied, products)
    case None =>
      var i := FindProduct(products, productId).value;
      var edited := products[i].(name := form.name, price := form.price, categoryId := form.categoryId,
                                 isPublished := Some(PublishedFlag(form.published)));
      if FindCategory(categories, form.categoryId).None? || !FitsNumeric(form.price)
         || !FitsVarchar(form.name, 100)
      then Change(SaveFailed, products)
      else Change(Saved, products[i := edited])
  }

  /** Nothing references product `id` any more. */
  predicate Unreferenced(carts: seq<CartRow>, orderItems: seq<OrderItem>, id: Id)
  {
    (forall c :: c in carts ==> c.productId != id) && (forall it :: it in orderItems ==> it.productId != id)
  }

  /**
   * `delete_product(product_id)`: past the gate, delete the row; the commit
   * fails (and rolls back) while a cart row or an order item still refers
   * to the product, since their `product_id` is NOT NULL.
   */
  function DeleteProduct(products: seq<Product>, carts: seq<CartRow>, orderItems: seq<OrderItem>, caller: User,
                         productId: Id): (r: Change)
    ensures Gate(products, caller, productId).Some? ==> r.reply == Gate(products, caller, productId).value
    ensures r.reply == Saved <==> Gate(products, caller, productId).None? && Unreferenced(carts, orderItems, productId)
    ensures r.reply != Saved ==> r.products == products
    ensures r.reply == Saved ==>
              && caller.roleId == SellerRoleId
              && FindProduct(products, productId).Some?
              && products[FindProduct(products, productId).value].createdBy == caller.id
              && Unreferenced(carts, orderItems, productId)
              && r.products == RemoveAt(products, FindProduct(products, productId).value)
  {
    match Gate(products, caller, productId)
    case Some(denied) => Change(denied, products)
    case None =>
      if !Unreferenced(carts, orderItems, productId) then Change(SaveFailed, products)
      else Change(Saved, RemoveAt(products, FindProduct(products, productId).value))
  }

  /** Every cart row and order item refers to an existing product. */
  ghost predicate ProductsResolve(products: seq<Product>, carts: seq<CartRow>, orderItems: seq<OrderItem>)
  {
    && (forall c :: c in carts ==> exists p :: p in products && p.id == c.productId)
    && (forall it :: it in orderItems ==> exists p :: p in products && p.id == it.productId)
  }

  /** A delete never leaves a cart row or an order item pointing at a missing product. */
  lemma DeleteKeepsReferencesResolved(products: seq<Product>, carts: seq<CartRow>, orderItems: seq<OrderItem>,
                                      caller: User, productId: Id)
    requires ProductsResolve(products, carts, orderItems)
    ensures ProductsResolve(DeleteProduct(products, carts, orderItems, caller, productId).products, carts, orderItems)
  {
    var r := DeleteProduct(products, carts, orderItems, caller, productId);
    if r.reply == Saved {
      var i := FindProduct(products, productId).value;
      forall p | p in products && p.id != productId ensures p in r.products {
        var j :| 0 <= j < |products| && products[j] == p;
        assert r.products[if j < i then j else j - 1] == p;
      }
    }
  }

  /** With unique product ids, a successful delete removes exactly the product with that id. */
  lemma DeleteRemovesExactlyThatProduct(products: seq<Product>, carts: seq<CartRow>, orderItems: seq<OrderItem>,
                                        caller: User, productId: Id)
    requires Unique(products, ProductKey)
    requires DeleteProduct(products, carts, orderItems, caller, productId).reply == Saved
    ensures forall p :: p in DeleteProduct(products, carts, orderItems, caller, productId).products
                        <==> p in products && p.id != productId
  {
    var i := FindProduct(products, productId).value;
    var r := DeleteProduct(products, carts, orderItems, caller, productId).products;
    forall p ensures p in r <==> p in products && p.id != productId {
      if p in r {
        var j :| 0 <= j < |r| && r[j] == p;
        var k := if j < i then j else j + 1;
        assert products[k] == p && k != i;
        assert ProductKey(products[k]) != ProductKey(products[i]);
      }
      if p in products && p.id != productId {
        var k :| 0 <= k < |products| && products[k] == p;
        assert r[if k < i then k else k - 1] == p;
      }
    }
  }

  method EditProductHandler(db: Database, caller: User, productId: Id, form: ProductForm) returns (reply: Reply)
    requires db.Valid()
    modifies db`products
    ensures db.Valid()
    ensures Change(reply, db.products) == EditProduct(old(db.products), db.categories, caller, productId, form)
  {
    if caller.roleId != SellerRoleId {
      return NotSeller;
    }
    var found := FindProduct(db.products, productId);
    if found.None? {
      return NotFound;
    }
    var i := found.value;
    var product := db.products[i];
    if product.createdBy != caller.id {
      return NotOwner;
    }
    product := product.(name := form.name, price := form.price, categoryId := form.categoryId);
    product := product.(isPublished := Some(PublishedFlag(form.published)));
    if FindCategory(db.categories, form.categoryId).None? || !FitsNumeric(form.price)
       || !FitsVarchar(form.name, 100) {
      return SaveFailed;
    }
    UniqueUpdate(db.products, i, product, ProductKey);
    db.products := db.products[i := product];
    reply := Saved;
  }

  method DeleteProductHandler(db: Database, caller: User, productId: Id) returns (reply: Reply)
    requires db.Valid()
    modifies db`products
    ensures db.Valid()
    ensures Change(reply, db.products) == DeleteProduct(old(db.products), db.carts, db.orderItems, caller, productId)
  {
    if caller.roleId != SellerRoleId {
      return NotSeller;
    }
    var found := FindProduct(db.products, productId);
    if found.None? {
      return NotFound;
    }
    var i := found.value;
    if db.products[i].createdBy != caller.id {
      return NotOwner;
    }
    if !Unreferenced(db.carts, db.orderItems, productId) {
      return SaveFailed;
    }
    UniqueRemoveAt(db.products, i, ProductKey);
    db.products := RemoveAt(db.products, i);
    reply := Saved;
  }
}
