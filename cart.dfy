/**
 * The cart endpoints: `add_to_cart` (an upsert keyed by user and product),
 * `cart_update` (increase or decrease one row, deleting it at zero or below)
 * and `cart_remove`. The caller is `current_user`, passed as its id.
 */
module CartService {
  import opened Wrappers
  import opened Rows
  import opened Models
  import opened Store

  /**
   * The JSON replies of `cart_update` and `cart_remove`: `{"success": true}`,
   * 403 for another user's row, 400 for an unknown action, and the
   * catch-all's 500 (a missing row's 404 is raised inside the `try`, so it
   * ends up here too, as does a failed commit).
   */
  datatype Reply = Success | Forbidden | BadAction | ServerError

  /** `add_to_cart` redirects with a success notice, or with an error notice after a rollback. */
  datatype AddReply = Added | AddFailed

  datatype CartStep = CartStep(reply: Reply, carts: seq<CartRow>)

  datatype AddStep = AddStep(reply: AddReply, carts: seq<CartRow>)

  /** Every row has a quantity of at least one. */
  predicate QuantitiesPositive(carts: seq<CartRow>)
  {
    forall i :: 0 <= i < |carts| ==> carts[i].quantity.Some? && carts[i].quantity.value >= 1
  }

  /** At most one row per (user, product). */
  ghost predicate OneRowPerProduct(carts: seq<CartRow>)
  {
    forall i, j :: 0 <= i < j < |carts| ==>
      carts[i].userId != carts[j].userId || carts[i].productId != carts[j].productId
  }

  /** `Cart.query.filter_by(user_id=..., product_id=...).first()`. */
  function FindUserProduct(carts: seq<CartRow>, userId: Id, productId: Id): (r: Option<nat>)
    ensures r.Some? ==> r.value < |carts| && carts[r.value].userId == userId && carts[r.value].productId == productId
    ensures r.None? <==> forall i :: 0 <= i < |carts| ==> carts[i].userId != userId || carts[i].productId != productId
  {
    FindFirst(carts, (c: CartRow) => c.userId == userId && c.productId == productId)
  }

  /** `(item.quantity or 0) + delta`. */
  function Bumped(c: CartRow, delta: int): int
  {
    c.quantity.GetOr(0) + delta
  }

  // ------------------------------------------------------------------
  // add_to_cart
  // ------------------------------------------------------------------

  /**
   * `add_to_cart(product_id)` by user `userId`: the product must exist; the
   * caller's row for it gains one unit (an absent quantity counting as 0),
   * or a row with quantity 1 is appended. A quantity that no longer fits the
   * integer column makes the commit fail.
   */
  function AddToCart(carts: seq<CartRow>, products: seq<Product>, userId: Id, productId: Id, now: Time)
    : (r: AddStep)
    ensures r.reply == AddFailed ==> r.carts == carts
    ensures FindProduct(products, productId).None? ==> r.reply == AddFailed
    ensures r.reply == Added <==>
              && FindProduct(products, productId).Some?
              && (|| FindUserProduct(carts, userId, productId).None?
                  || FitsInteger(Bumped(carts[FindUserProduct(carts, userId, productId).value], 1)))
    ensures r.reply == Added && FindUserProduct(carts, userId, productId).Some? ==>
      var i := FindUserProduct(carts, userId, productId).value;
      && |r.carts| == |carts|
      && r.carts[i] == carts[i].(quantity := Some(Bumped(carts[i], 1)))
      && forall j :: 0 <= j < |carts| && j != i ==> r.carts[j] == carts[j]
    ensures r.reply == Added && FindUserProduct(carts, userId, productId).None? ==>
      && |r.carts| == |carts| + 1
      && r.carts[..|carts|] == carts
      && r.carts[|carts|].userId == userId && r.carts[|carts|].productId == productId
      && r.carts[|carts|].quantity == Some(1)
      && r.carts[|carts|].id !in set c | c in carts :: c.id
  {
    if FindProduct(products, productId).None? then AddStep(AddFailed, carts)
    else match FindUserProduct(carts, userId, productId)
      case Some(i) =>
        var q := Bumped(carts[i], 1);
        if !FitsInteger(q) then AddStep(AddFailed, carts)
        else AddStep(Added, carts[i := carts[i].(quantity := Some(q))])
      case None =>
        AddStep(Added, carts + [NewCartRow(NextId(carts, CartKey), userId, productId, Some(1), now)])
  }

  /** The upsert never creates a second row for the same user and product. */
  lemma AddToCartKeepsOneRowPerProduct(carts: seq<CartRow>, products: seq<Product>, userId: Id, productId: Id,
                                       now: Time)
    requires OneRowPerProduct(carts)
    ensures OneRowPerProduct(AddToCart(carts, products, userId, productId, now).carts)
  {
    var r := AddToCart(carts, products, userId, productId, now);
    if r.reply == Added && FindUserProduct(carts, userId, productId).None? {
      forall i, j | 0 <= i < j < |r.carts|
        ensures r.carts[i].userId != r.carts[j].userId || r.carts[i].productId != r.carts[j].productId
      {
        if j == |carts| {
          assert r.carts[i] == carts[i];
        } else {
          assert r.carts[i] == carts[i] && r.carts[j] == carts[j];
        }
      }
    }
  }

  /** Adding keeps every quantity at one or more. */
  lemma AddToCartKeepsQuantitiesPositive(carts: seq<CartRow>, products: seq<Product>, userId: Id, productId: Id,
                                         now: Time)
    requires QuantitiesPositive(carts)
    ensures QuantitiesPositive(AddToCart(carts, products, userId, productId, now).carts)
  {
  }

  lemma AddToCartKeepsKeys(carts: seq<CartRow>, products: seq<Product>, userId: Id, productId: Id, now: Time)
    requires Unique(carts, CartKey)
    ensures Unique(AddToCart(carts, products, userId, productId, now).carts, CartKey)
  {
    var r := AddToCart(carts, products, userId, productId, now);
    if r.reply == Added {
      match FindUserProduct(carts, userId, productId)
      case Some(i) =>
        UniqueUpdate(carts, i, r.carts[i], CartKey);
      case None =>
        var row := NewCartRow(NextId(carts, CartKey), userId, productId, Some(1), now);
        UniqueAppend(carts, row, CartKey);
    }
  }

  /**
   * Adding a product the caller has no row for, twice, appends one row with
   * quantity 2 and leaves every other row as it was.
   */
  lemma AddTwiceGivesOneRowOfTwo(carts: seq<CartRow>, products: seq<Product>, userId: Id, productId: Id,
                                 t1: Time, t2: Time)
    requires FindProduct(products, productId).Some?
    requires FindUserProduct(carts, userId, productId).None?
    ensures var first := AddToCart(carts, products, userId, productId, t1);
            var second := AddToCart(first.carts, products, userId, productId, t2);
            && second.reply == Added
            && |second.carts| == |carts| + 1 && second.carts[..|carts|] == carts
            && second.carts[|carts|].userId == userId && second.carts[|carts|].productId == productId
            && second.carts[|carts|].quantity == Some(2)
  {
    var first := AddToCart(carts, products, userId, productId, t1);
    assert first.carts[..|carts|] == carts;
    assert forall j :: 0 <= j < |carts| ==> first.carts[j] == carts[j];
    assert FindUserProduct(first.carts, userId, productId) == Some(|carts|);
    var second := AddToCart(first.carts, products, userId, productId, t2);
    assert second.carts[..|carts|] == first.carts[..|carts|];
  }

  method AddToCartHandler(db: Database, userId: Id, productId: Id, now: Time) returns (reply: AddReply)
    requires db.Valid()
    modifies db`carts
    ensures db.Valid()
    ensures AddStep(reply, db.carts) == AddToCart(old(db.carts), db.products, userId, productId, now)
  {
    AddToCartKeepsKeys(db.carts, db.products, userId, productId, now);
    if FindProduct(db.products, productId).None? {
      return AddFailed;
    }
    var item := FindUserProduct(db.carts, userId, productId);
    if item.Some? {
      var i := item.value;
      var q := Bumped(db.carts[i], 1);
      if !FitsInteger(q) {
        return AddFailed;
      }
      db.carts := db.carts[i := db.carts[i].(quantity := Some(q))];
    } else {
      var row := NewCartRow(NextId(db.carts, CartKey), userId, productId, Some(1), now);
      db.carts := db.carts + [row];
    }
    reply := Added;
  }

  // ------------------------------------------------------------------
  // cart_update and cart_remove
  // ------------------------------------------------------------------

  /**
   * `after` is `before` with row `i` either deleted or with only its quantity
   * changed: no other row, and no other column, is touched.
   */
  ghost predicate OnlyRowChanged(before: seq<CartRow>, after: seq<CartRow>, i: nat)
    requires i < |before|
  {
    || after == RemoveAt(before, i)
    || (&& |after| == |before|
        && after[i] == before[i].(quantity := after[i].quantity)
        && forall j :: 0 <= j < |before| && j != i ==> after[j] == before[j])
  }

  /**
   * `cart_update(item_id)` with JSON field `action`: the row must exist
   * (else 500), belong to the caller (else 403), and the action be
   * "increase" or "decrease" (else 400). A decrease to 0 or below deletes
   * the row.
   */
  function UpdateCart(carts: seq<CartRow>, userId: Id, itemId: Id, action: Option<string>): (r: CartStep)
    ensures r.reply != Success ==> r.carts == carts
    ensures FindCartRow(carts, itemId).None? ==> r.reply == ServerError
    ensures r.reply == Forbidden <==>
              FindCartRow(carts, itemId).Some? && carts[FindCartRow(carts, itemId).value].userId != userId
    ensures r.reply == BadAction <==>
              && FindCartRow(carts, itemId).Some? && carts[FindCartRow(carts, itemId).value].userId == userId
              && action != Some("increase") && action != Some("decrease")
    ensures r.reply == Success <==>
              && FindCartRow(carts, itemId).Some? && carts[FindCartRow(carts, itemId).value].userId == userId
              && (|| action == Some("decrease")
                  || (action == Some("increase") && FitsInteger(Bumped(carts[FindCartRow(carts, itemId).value], 1))))
    ensures r.reply == Success ==>
              && FindCartRow(carts, itemId).Some?
              && carts[FindCartRow(carts, itemId).value].userId == userId
              && OnlyRowChanged(carts, r.carts, FindCartRow(carts, itemId).value)
  {
    match FindCartRow(carts, itemId)
    case None => CartStep(ServerError, carts)
    case Some(i) =>
      var item := carts[i];
      if item.userId != userId then CartStep(Forbidden, carts)
      else if action == Some("increase") then
        var q := Bumped(item, 1);
        if !FitsInteger(q) then CartStep(ServerError, carts)
        else CartStep(Success, carts[i := item.(quantity := Some(q))])
      else if action == Some("decrease") then
        var q := Bumped(item, -1);
        if q <= 0 then CartStep(Success, RemoveAt(carts, i))
        else CartStep(Success, carts[i := item.(quantity := Some(q))])
      else CartStep(BadAction, carts)
  }

  /** What a successful update does to the target row: one more, one less, or deleted at zero or below. */
  lemma UpdateCartStep(carts: seq<CartRow>, userId: Id, itemId: Id, action: Option<string>)
    requires UpdateCart(carts, userId, itemId, action).reply == Success
    ensures var i := FindCartRow(carts, itemId).value;
            var r := UpdateCart(carts, userId, itemId, action).carts;
            && (action == Some("increase") ==> |r| == |carts| && r[i].quantity == Some(Bumped(carts[i], 1)))
            && (action == Some("decrease") && Bumped(carts[i], -1) > 0 ==>
                  |r| == |carts| && r[i].quantity == Some(Bumped(carts[i], -1)))
            && (action == Some("decrease") && Bumped(carts[i], -1) <= 0 ==> r == RemoveAt(carts, i))
  {
  }

  /** Updates never leave a row with a quantity below one. */
  lemma UpdateCartKeepsQuantitiesPositive(carts: seq<CartRow>, userId: Id, itemId: Id, action: Option<string>)
    requires QuantitiesPositive(carts)
    ensures QuantitiesPositive(UpdateCart(carts, userId, itemId, action).carts)
  {
    var r := UpdateCart(carts, userId, itemId, action);
    if r.reply == Success {
      var i := FindCartRow(carts, itemId).value;
      if r.carts != RemoveAt(carts, i) {
        assert action == Some("increase") || action == Some("decrease");
        forall j | 0 <= j < |r.carts| ensures r.carts[j].quantity.Some? && r.carts[j].quantity.value >= 1 {
          if j != i {
            assert r.carts[j] == carts[j];
          }
        }
      } else {
        forall j | 0 <= j < |r.carts| ensures r.carts[j].quantity.Some? && r.carts[j].quantity.value >= 1 {
          assert r.carts[j] == carts[if j < i then j else j + 1];
        }
      }
    }
  }

  lemma UpdateCartKeepsKeys(carts: seq<CartRow>, userId: Id, itemId: Id, action: Option<string>)
    requires Unique(carts, CartKey)
    ensures Unique(UpdateCart(carts, userId, itemId, action).carts, CartKey)
  {
    var r := UpdateCart(carts, userId, itemId, action);
    if r.reply == Success {
      var i := FindCartRow(carts, itemId).value;
      if r.carts == RemoveAt(carts, i) {
        UniqueRemoveAt(carts, i, CartKey);
      } else {
        UniqueUpdate(carts, i, r.carts[i], CartKey);
      }
    }
  }

  /**
   * `cart_remove(item_id)`: the row must exist (else 500) and belong to the
   * caller (else 403); then exactly that row is deleted.
   */
  function RemoveFromCart(carts: seq<CartRow>, userId: Id, itemId: Id): (r: CartStep)
    ensures r.reply in {Success, Forbidden, ServerError}
    ensures r.reply != Success ==> r.carts == carts
    ensures r.reply == ServerError <==> FindCartRow(carts, itemId).None?
    ensures r.reply == Forbidden <==>
              FindCartRow(carts, itemId).Some? && carts[FindCartRow(carts, itemId).value].userId != userId
    ensures r.reply == Success ==> r.carts == RemoveAt(carts, FindCartRow(carts, itemId).value)
  {
    match FindCartRow(carts, itemId)
    case None => CartStep(ServerError, carts)
    case Some(i) =>
      if carts[i].userId != userId then CartStep(Forbidden, carts)
      else CartStep(Success, RemoveAt(carts, i))
  }

  /** With unique row ids, a successful removal deletes the row with that id and keeps every other row. */
  lemma RemoveFromCartDeletesExactlyThatRow(carts: seq<CartRow>, userId: Id, itemId: Id)
    requires Unique(carts, CartKey)
    requires RemoveFromCart(carts, userId, itemId).reply == Success
    ensures forall c :: c in RemoveFromCart(carts, userId, itemId).carts <==> c in carts && c.id != itemId
    ensures |RemoveFromCart(carts, userId, itemId).carts| == |carts| - 1
  {
    var i := FindCartRow(carts, itemId).value;
    var r := RemoveFromCart(carts, userId, itemId).carts;
    forall c ensures c in r <==> c in carts && c.id != itemId {
      if c in r {
        var j :| 0 <= j < |r| && r[j] == c;
        var k := if j < i then j else j + 1;
        assert carts[k] == c && k != i;
        assert CartKey(carts[k]) != CartKey(carts[i]);
      }
      if c in carts && c.id != itemId {
        var k :| 0 <= k < |carts| && carts[k] == c;
        assert k != i;
        assert r[if k < i then k else k - 1] == c;
      }
    }
  }

  method CartUpdateHandler(db: Database, userId: Id, itemId: Id, action: Option<string>) returns (reply: Reply)
    requires db.Valid()
    modifies db`carts
    ensures db.Valid()
    ensures CartStep(reply, db.carts) == UpdateCart(old(db.carts), userId, itemId, action)
  {
    UpdateCartKeepsKeys(db.carts, userId, itemId, action);
    var found := FindCartRow(db.carts, itemId);
    if found.None? {
      return ServerError;
    }
    var i := found.value;
    var item := db.carts[i];
    if item.userId != userId {
      return Forbidden;
    }
    if action == Some("increase") {
      var q := Bumped(item, 1);
      if !FitsInteger(q) {
        return ServerError;
      }
      db.carts := db.carts[i := item.(quantity := Some(q))];
    } else if action == Some("decrease") {
      var q := Bumped(item, -1);
      if q <= 0 {
        db.carts := RemoveAt(db.carts, i);
        return Success;
      }
      db.carts := db.carts[i := item.(quantity := Some(q))];
    } else {
      return BadAction;
    }
    reply := Success;
  }

  method CartRemoveHandler(db: Database, userId: Id, itemId: Id) returns (reply: Reply)
    requires db.Valid()
    modifies db`carts
    ensures db.Valid()
    ensures CartStep(reply, db.carts) == RemoveFromCart(old(db.carts), userId, itemId)
  {
    var found := FindCartRow(db.carts, itemId);
    if found.None? {
      return ServerError;
    }
    var i := found.value;
    if db.carts[i].userId != userId {
      return Forbidden;
    }
    UniqueRemoveAt(db.carts, i, CartKey);
    db.carts := RemoveAt(db.carts, i);
    reply := Success;
  }
}
