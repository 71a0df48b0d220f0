/**
 * Checkout: the `checkout` page (cart rows and their total) and the
 * `process_checkout` transaction, which turns the caller's cart into one
 * order, one order item per cart row with the product's current price, and
 * deletes the caller's cart rows, all committed together or rolled back.
 */
module Checkout {
  import opened Wrappers
  import opened Rows
  import opened Models
  import opened Store

  /** `Cart.query.filter_by(user_id=...).all()`: the user's rows in store order. */
  function CartOf(carts: seq<CartRow>, userId: Id): (r: seq<CartRow>)
    ensures forall c :: c in r <==> c in carts && c.userId == userId
    ensures r == [] <==> forall c :: c in carts ==> c.userId != userId
  {
    var r := Filter(carts, (c: CartRow) => c.userId == userId);
    assert r != [] ==> r[0] in r;
    r
  }

  /** The rows of every other user. */
  function OtherCarts(carts: seq<CartRow>, userId: Id): (r: seq<CartRow>)
    ensures forall c :: c in r <==> c in carts && c.userId != userId
  {
    Filter(carts, (c: CartRow) => c.userId != userId)
  }

  /** `item.product.price`; `None` when the product row is missing and the attribute access raises. */
  function PriceOf(products: seq<Product>, productId: Id): (r: Option<Cents>)
    ensures r.Some? <==> FindProduct(products, productId).Some?
    ensures r.Some? ==> r.value == products[FindProduct(products, productId).value].price
  {
    match FindProduct(products, productId)
    case None => None
    case Some(i) => Some(products[i].price)
  }

  /** `item.product.created_by`. */
  function CreatorOf(products: seq<Product>, productId: Id): (r: Option<Id>)
    ensures r.Some? <==> FindProduct(products, productId).Some?
    ensures r.Some? ==> r.value == products[FindProduct(products, productId).value].createdBy
  {
    match FindProduct(products, productId)
    case None => None
    case Some(i) => Some(products[i].createdBy)
  }

  /** Every row's product can be loaded. */
  predicate AllPriced(rows: seq<CartRow>, products: seq<Product>)
  {
    forall i :: 0 <= i < |rows| ==> PriceOf(products, rows[i].productId).Some?
  }

  /** Every row can become an order item: its product exists and its quantity is not NULL. */
  predicate Insertable(rows: seq<CartRow>, products: seq<Product>)
  {
    AllPriced(rows, products) && forall i :: 0 <= i < |rows| ==> rows[i].quantity.Some?
  }

  /** `(item.product.price or 0) * (item.quantity or 0)`. */
  function LineAmount(row: CartRow, products: seq<Product>): Cents
    requires PriceOf(products, row.productId).Some?
  {
    PriceOf(products, row.productId).value * row.quantity.GetOr(0)
  }

  /** `sum([...])` over the rows. */
  function CartTotal(rows: seq<CartRow>, products: seq<Product>): Cents
    requires AllPriced(rows, products)
  {
    if rows == [] then 0 else LineAmount(rows[0], products) + CartTotal(rows[1..], products)
  }

  /** `item.price * item.quantity` of a stored line. */
  function ItemAmount(item: OrderItem): Cents
  {
    item.price * item.quantity
  }

  /** The order items for `rows`: ids `firstId`, `firstId + 1`, ... in row order. */
  function LineItems(rows: seq<CartRow>, products: seq<Product>, orderId: Id, firstId: Id, now: Time)
    : (r: seq<OrderItem>)
    requires Insertable(rows, products)
    ensures |r| == |rows|
    ensures forall k :: 0 <= k < |rows| ==>
              && r[k].id == firstId + k && r[k].orderId == orderId
              && r[k].productId == rows[k].productId
              && Some(r[k].quantity) == rows[k].quantity
              && Some(r[k].price) == PriceOf(products, rows[k].productId)
  {
    seq(|rows|, k requires 0 <= k < |rows| =>
      OrderItem(firstId + k, orderId, rows[k].productId, rows[k].quantity.value,
                PriceOf(products, rows[k].productId).value, Some(now)))
  }

  /** The total charged for a cart equals the sum of price times quantity over the items it becomes. */
  lemma {:induction false} TotalEqualsItemSum(rows: seq<CartRow>, products: seq<Product>, orderId: Id, firstId: Id,
                                              now: Time)
    requires Insertable(rows, products)
    ensures CartTotal(rows, products) == SumOf(LineItems(rows, products, orderId, firstId, now), ItemAmount)
  {
    if rows != [] {
      var items := LineItems(rows, products, orderId, firstId, now);
      assert Insertable(rows[1..], products) by {
        forall i | 0 <= i < |rows| - 1 ensures rows[1..][i] == rows[i + 1] { }
      }
      var rest := LineItems(rows[1..], products, orderId, firstId + 1, now);
      assert items[1..] == rest by {
        forall k | 0 <= k < |rest| ensures items[1..][k] == rest[k] {
          assert rows[1..][k] == rows[k + 1];
        }
      }
      TotalEqualsItemSum(rows[1..], products, orderId, firstId + 1, now);
    }
  }

  // ------------------------------------------------------------------
  // The checkout page.
  // ------------------------------------------------------------------

  datatype Page = EmptyCartNotice | Summary(rows: seq<CartRow>, total: Cents) | LoadError

  /**
   * `checkout()`: the total is computed before the emptiness check; a row
   * whose product is missing makes it raise.
   */
  function CheckoutPage(carts: seq<CartRow>, products: seq<Product>, userId: Id): (p: Page)
    ensures p.EmptyCartNotice? <==> CartOf(carts, userId) == []
    ensures p.LoadError? <==> !AllPriced(CartOf(carts, userId), products)
    ensures p.Summary? ==> p.rows == CartOf(carts, userId) && p.rows != []
  {
    var rows := CartOf(carts, userId);
    if !AllPriced(rows, products) then LoadError
    else if rows == [] then EmptyCartNotice
    else Summary(rows, CartTotal(rows, products))
  }

  // ------------------------------------------------------------------
  // process_checkout
  // ------------------------------------------------------------------

  datatype Outcome = Placed(orderId: Id) | EmptyCart | Failed

  /** The tables `process_checkout` writes, after it commits or rolls back. */
  datatype Txn = Txn(outcome: Outcome, orders: seq<Order>, orderItems: seq<OrderItem>, carts: seq<CartRow>)

  /**
   * `process_checkout()` for user `userId`. An empty cart changes nothing.
   * Otherwise the order's seller is the creator of the FIRST row's product
   * and its total the cart total; the transaction rolls back when a row's
   * product is missing, the total does not fit `Numeric(10, 2)`, or a row's
   * quantity is NULL (OrderItem.quantity is NOT NULL).
   */
  function PlaceOrder(products: seq<Product>, carts: seq<CartRow>, orders: seq<Order>, orderItems: seq<OrderItem>,
                      userId: Id, now: Time): (t: Txn)
    ensures !t.outcome.Placed? ==> t.orders == orders && t.orderItems == orderItems && t.carts == carts
    ensures t.outcome.EmptyCart? <==> CartOf(carts, userId) == []
    ensures t.outcome.Placed? ==> t.carts == OtherCarts(carts, userId)
    ensures t.outcome.Placed? <==>
              && CartOf(carts, userId) != []
              && Insertable(CartOf(carts, userId), products)
              && FitsNumeric(CartTotal(CartOf(carts, userId), products))
  {
    var rows := CartOf(carts, userId);
    if rows == [] then Txn(EmptyCart, orders, orderItems, carts)
    else if !AllPriced(rows, products) then Txn(Failed, orders, orderItems, carts)
    else
      var orderId := NextId(orders, OrderKey);
      var seller := CreatorOf(products, rows[0].productId).value;
      match NewOrder(orderId, userId, seller, Some(CartTotal(rows, products)), Some("pending"), now)
      case None => Txn(Failed, orders, orderItems, carts)
      case Some(order) =>
        if !Insertable(rows, products) then Txn(Failed, orders, orderItems, carts)
        else
          var items := LineItems(rows, products, orderId, NextId(orderItems, ItemKey), now);
          Txn(Placed(orderId), orders + [order], orderItems + items, OtherCarts(carts, userId))
  }

  /**
   * A placed order: exactly one new order, for the caller, pending, sold by
   * the creator of the first cart row's product, charging the cart total.
   */
  lemma PlacedOrderFields(products: seq<Product>, carts: seq<CartRow>, orders: seq<Order>,
                          orderItems: seq<OrderItem>, userId: Id, now: Time)
    requires PlaceOrder(products, carts, orders, orderItems, userId, now).outcome.Placed?
    ensures var t := PlaceOrder(products, carts, orders, orderItems, userId, now);
            var rows := CartOf(carts, userId);
            && rows != [] && Insertable(rows, products)
            && |t.orders| == |orders| + 1 && t.orders[..|orders|] == orders
            && t.orders[|orders|].id == t.outcome.orderId
            && (forall o :: o in orders ==> o.id != t.outcome.orderId)
            && t.orders[|orders|].userId == userId
            && t.orders[|orders|].status == "pending"
            && Some(t.orders[|orders|].sellerId) == CreatorOf(products, rows[0].productId)
            && t.orders[|orders|].totalAmount == CartTotal(rows, products)
            && t.orders[|orders|].createdAt == now
  {
    var t := PlaceOrder(products, carts, orders, orderItems, userId, now);
    assert (orders + [t.orders[|orders|]])[..|orders|] == orders;
  }

  /**
   * A placed order's items: one per cart row, in cart order, each copying the
   * row's product and quantity and the product's price at that moment; the
   * order total equals the sum of the items' price times quantity.
   */
  lemma PlacedOrderItems(products: seq<Product>, carts: seq<CartRow>, orders: seq<Order>,
                         orderItems: seq<OrderItem>, userId: Id, now: Time)
    requires PlaceOrder(products, carts, orders, orderItems, userId, now).outcome.Placed?
    ensures var t := PlaceOrder(products, carts, orders, orderItems, userId, now);
            var rows := CartOf(carts, userId);
            var added := t.orderItems[|orderItems|..];
            && |t.orderItems| == |orderItems| + |rows|
            && t.orderItems[..|orderItems|] == orderItems
            && (forall k :: 0 <= k < |rows| ==>
                  && added[k].orderId == t.outcome.orderId
                  && added[k].productId == rows[k].productId
                  && Some(added[k].quantity) == rows[k].quantity
                  && Some(added[k].price) == PriceOf(products, rows[k].productId))
            && t.orders[|orders|].totalAmount == SumOf(added, ItemAmount)
  {
    var t := PlaceOrder(products, carts, orders, orderItems, userId, now);
    var rows := CartOf(carts, userId);
    var orderId := NextId(orders, OrderKey);
    var items := LineItems(rows, products, orderId, NextId(orderItems, ItemKey), now);
    assert t.orderItems == orderItems + items;
    assert t.orderItems[|orderItems|..] == items;
    assert t.orderItems[..|orderItems|] == orderItems;
    PlacedOrderFields(products, carts, orders, orderItems, userId, now);
    TotalEqualsItemSum(rows, products, orderId, NextId(orderItems, ItemKey), now);
  }

  /** A placed order empties the caller's cart and leaves every other user's cart as it was. */
  lemma PlacedOrderClearsOnlyCallersCart(products: seq<Product>, carts: seq<CartRow>, orders: seq<Order>,
                                         orderItems: seq<OrderItem>, userId: Id, now: Time, other: Id)
    requires PlaceOrder(products, carts, orders, orderItems, userId, now).outcome.Placed?
    requires other != userId
    ensures CartOf(PlaceOrder(products, carts, orders, orderItems, userId, now).carts, userId) == []
    ensures CartOf(PlaceOrder(products, carts, orders, orderItems, userId, now).carts, other) == CartOf(carts, other)
  {
    var after := OtherCarts(carts, userId);
    FilterFilter(carts, (c: CartRow) => c.userId != userId, (c: CartRow) => c.userId == other,
                 (c: CartRow) => c.userId == other);
  }

  /** A row with a NULL quantity in a non-empty cart makes the whole checkout roll back. */
  lemma NullQuantityRollsBack(products: seq<Product>, carts: seq<CartRow>, orders: seq<Order>,
                              orderItems: seq<OrderItem>, userId: Id, now: Time, c: CartRow)
    requires c in carts && c.userId == userId && c.quantity.None?
    ensures PlaceOrder(products, carts, orders, orderItems, userId, now).outcome == Failed
    ensures PlaceOrder(products, carts, orders, orderItems, userId, now).carts == carts
  {
    var rows := CartOf(carts, userId);
    assert c in rows;
    var k :| 0 <= k < |rows| && rows[k] == c;
    assert !Insertable(rows, products);
  }

  /** The page shows the total the order will charge. */
  lemma PageTotalIsOrderTotal(products: seq<Product>, carts: seq<CartRow>, orders: seq<Order>,
                              orderItems: seq<OrderItem>, userId: Id, now: Time)
    requires PlaceOrder(products, carts, orders, orderItems, userId, now).outcome.Placed?
    ensures var t := PlaceOrder(products, carts, orders, orderItems, userId, now);
            && CheckoutPage(carts, products, userId).Summary?
            && CheckoutPage(carts, products, userId).total == t.orders[|orders|].totalAmount
  {
    PlacedOrderFields(products, carts, orders, orderItems, userId, now);
  }

  /** Ids of the rows. */
  function RowIds(rows: seq<CartRow>): set<Id>
  {
    if |rows| == 0 then {} else RowIds(rows[..|rows| - 1]) + {rows[|rows| - 1].id}
  }

  lemma {:induction false} RowIdsAreIds(rows: seq<CartRow>)
    ensures forall id :: id in RowIds(rows) <==> exists c :: c in rows && c.id == id
  {
    if |rows| > 0 {
      var init := rows[..|rows| - 1];
      RowIdsAreIds(init);
      assert rows == init + [rows[|rows| - 1]];
    }
  }

  /** The condition that keeps a row whose id is not among `ids`. */
  function NotAmong(ids: set<Id>): CartRow -> bool
  {
    (c: CartRow) => c.id !in ids
  }

  /** Before the first deletion every row is kept. */
  lemma NothingDeleted(carts: seq<CartRow>, rows: seq<CartRow>)
    ensures Filter(carts, NotAmong(RowIds(rows[..0]))) == carts
  {
    assert RowIds(rows[..0]) == {};
    FilterSame(carts, (c: CartRow) => true, NotAmong({}));
    FilterAll(carts);
  }

  /** Deleting row `k` after rows `0..k` is deleting rows `0..k+1` at once. */
  lemma DeleteOneMore(carts: seq<CartRow>, rows: seq<CartRow>, k: nat)
    requires k < |rows|
    ensures Filter(Filter(carts, NotAmong(RowIds(rows[..k]))), NotAmong({rows[k].id}))
            == Filter(carts, NotAmong(RowIds(rows[..k + 1])))
  {
    assert rows[..k + 1][..k] == rows[..k];
    FilterFilter(carts, NotAmong(RowIds(rows[..k])), NotAmong({rows[k].id}), NotAmong(RowIds(rows[..k + 1])));
  }

  /** Deleting the caller's rows by their primary keys leaves exactly the other users' rows. */
  lemma RemovingCallersRowsById(carts: seq<CartRow>, userId: Id)
    requires Unique(carts, CartKey)
    ensures Filter(carts, NotAmong(RowIds(CartOf(carts, userId)))) == OtherCarts(carts, userId)
  {
    var mine := CartOf(carts, userId);
    RowIdsAreIds(mine);
    forall c | c in carts ensures NotAmong(RowIds(mine))(c) == (c.userId != userId) {
      if c.id in RowIds(mine) {
        var m :| m in mine && m.id == c.id;
        var i :| 0 <= i < |carts| && carts[i] == c;
        var j :| 0 <= j < |carts| && carts[j] == m;
        assert CartKey(carts[i]) == CartKey(carts[j]);
      }
    }
    FilterSame(carts, NotAmong(RowIds(mine)), (c: CartRow) => c.userId != userId);
  }

  /**
   * The loop that adds one order item per cart row. Adding never fails;
   * `nullColumn` records a row whose NULL quantity will make the commit fail.
   */
  method BuildLineItems(rows: seq<CartRow>, products: seq<Product>, orderId: Id, firstId: Id, now: Time)
    returns (items: seq<OrderItem>, nullColumn: bool)
    requires AllPriced(rows, products)
    ensures nullColumn <==> !Insertable(rows, products)
    ensures !nullColumn ==> items == LineItems(rows, products, orderId, firstId, now)
  {
    items, nullColumn := [], false;
    var k := 0;
    while k < |rows|
      invariant 0 <= k <= |rows|
      invariant nullColumn <==> exists j :: 0 <= j < k && rows[j].quantity.None?
      invariant !nullColumn ==> |items| == k
      invariant !nullColumn ==> forall j :: 0 <= j < k ==>
                  items[j] == OrderItem(firstId + j, orderId, rows[j].productId, rows[j].quantity.value,
                                        PriceOf(products, rows[j].productId).value, Some(now))
    {
      var item := rows[k];
      var line := NewOrderItem(firstId + k, orderId, item.productId, item.quantity,
                               PriceOf(products, item.productId), now);
      if line.Some? {
        items := items + [line.value];
      } else {
        nullColumn := true;
      }
      k := k + 1;
    }
  }

  /** The loop that deletes the loaded rows one by one, by primary key. */
  method DeleteRows(carts: seq<CartRow>, rows: seq<CartRow>) returns (remaining: seq<CartRow>)
    ensures remaining == Filter(carts, NotAmong(RowIds(rows)))
  {
    remaining := carts;
    var k := 0;
    NothingDeleted(carts, rows);
    while k < |rows|
      invariant 0 <= k <= |rows|
      invariant remaining == Filter(carts, NotAmong(RowIds(rows[..k])))
    {
      DeleteOneMore(carts, rows, k);
      remaining := Filter(remaining, NotAmong({rows[k].id}));
      k := k + 1;
    }
    assert rows[..k] == rows;
  }

  lemma PlacedItemsKeepKeys(products: seq<Product>, carts: seq<CartRow>, orders: seq<Order>,
                            orderItems: seq<OrderItem>, userId: Id, now: Time)
    requires Unique(orderItems, ItemKey)
    requires PlaceOrder(products, carts, orders, orderItems, userId, now).outcome.Placed?
    ensures Unique(PlaceOrder(products, carts, orders, orderItems, userId, now).orderItems, ItemKey)
  {
    var rows := CartOf(carts, userId);
    var items := LineItems(rows, products, NextId(orders, OrderKey), NextId(orderItems, ItemKey), now);
    UniqueConcat(orderItems, items, ItemKey);
  }

  lemma PlacedOrdersKeepKeys(products: seq<Product>, carts: seq<CartRow>, orders: seq<Order>,
                             orderItems: seq<OrderItem>, userId: Id, now: Time)
    requires Unique(orders, OrderKey)
    requires PlaceOrder(products, carts, orders, orderItems, userId, now).outcome.Placed?
    ensures Unique(PlaceOrder(products, carts, orders, orderItems, userId, now).orders, OrderKey)
  {
    var t := PlaceOrder(products, carts, orders, orderItems, userId, now);
    PlacedOrderFields(products, carts, orders, orderItems, userId, now);
    assert t.orders == orders + [t.orders[|orders|]];
    UniqueAppend(orders, t.orders[|orders|], OrderKey);
  }

  /** A committed checkout keeps every primary key unique. */
  lemma PlacedKeepsKeys(roles: seq<Role>, users: seq<User>, categories: seq<Category>, products: seq<Product>,
                        carts: seq<CartRow>, orders: seq<Order>, orderItems: seq<OrderItem>, userId: Id, now: Time)
    requires KeysHold(roles, users, categories, products, carts, orders, orderItems)
    requires PlaceOrder(products, carts, orders, orderItems, userId, now).outcome.Placed?
    ensures var t := PlaceOrder(products, carts, orders, orderItems, userId, now);
            KeysHold(roles, users, categories, products, t.carts, t.orders, t.orderItems)
  {
    PlacedItemsKeepKeys(products, carts, orders, orderItems, userId, now);
    PlacedOrdersKeepKeys(products, carts, orders, orderItems, userId, now);
    UniqueFilter(carts, (c: CartRow) => c.userId != userId, CartKey);
  }

  /**
   * The body of `process_checkout` over the loaded tables: the pending
   * order, the item loop and the delete loop, then commit or roll back.
   */
  method ProcessCheckout(products: seq<Product>, carts: seq<CartRow>, orders: seq<Order>, orderItems: seq<OrderItem>,
                         userId: Id, now: Time) returns (t: Txn)
    requires Unique(carts, CartKey)
    ensures t == PlaceOrder(products, carts, orders, orderItems, userId, now)
  {
    var cartItems := CartOf(carts, userId);
    if cartItems == [] {
      return Txn(EmptyCart, orders, orderItems, carts);
    }
    if !AllPriced(cartItems, products) {
      return Txn(Failed, orders, orderItems, carts);
    }
    var total := CartTotal(cartItems, products);
    var seller := CreatorOf(products, cartItems[0].productId).value;
    var orderId := NextId(orders, OrderKey);
    var order := NewOrder(orderId, userId, seller, Some(total), Some("pending"), now);
    if order.None? {
      return Txn(Failed, orders, orderItems, carts);
    }
    var firstItemId := NextId(orderItems, ItemKey);
    var pendingItems, nullColumn := BuildLineItems(cartItems, products, orderId, firstItemId, now);
    var pendingCarts := DeleteRows(carts, cartItems);
    // Commit, or roll back on the NOT NULL violation.
    if nullColumn {
      return Txn(Failed, orders, orderItems, carts);
    }
    RemovingCallersRowsById(carts, userId);
    t := Txn(Placed(orderId), orders + [order.value], orderItems + pendingItems, pendingCarts);
  }

  method CheckoutHandler(db: Database, userId: Id, now: Time) returns (outcome: Outcome)
    requires db.Valid()
    modifies db`orders, db`orderItems, db`carts
    ensures db.Valid()
    ensures Txn(outcome, db.orders, db.orderItems, db.carts)
              == PlaceOrder(db.products, old(db.carts), old(db.orders), old(db.orderItems), userId, now)
  {
    var t := ProcessCheckout(db.products, db.carts, db.orders, db.orderItems, userId, now);
    if t.outcome.Placed? {
      PlacedKeepsKeys(db.roles, db.users, db.categories, db.products, db.carts, db.orders, db.orderItems, userId, now);
    }
    db.orders, db.orderItems, db.carts := t.orders, t.orderItems, t.carts;
    outcome := t.outcome;
  }
}
