/**
 * The read-only catalogue pages: the published-product listing with its
 * filters and pagination (`products`), per-product order statistics
 * (`product_stats`), the four rankings (`top_products`) and the user
 * dashboard.
 */
module Catalog {
  import opened Wrappers
  import opened Rows
  import opened Models
  import opened Checkout

  // ---------------------------------------------------------------------
  // /products
  // ---------------------------------------------------------------------

  /** Products per page. */
  const PerPage: nat := 12

  /**
   * The query-string filters: `category` (an int, or absent/unparsable) and
   * the inclusive price bounds, in cents.
   */
  datatype Filters = Filters(category: Option<int>, minPrice: Option<Cents>, maxPrice: Option<Cents>)

  /**
   * The WHERE clause: published (a NULL flag does not match), in the
   * category when one is given and non-zero, and within the bounds.
   */
  predicate Listed(f: Filters, p: Product)
  {
    && p.isPublished == Some(true)
    && (f.category.None? || f.category.value == 0 || p.categoryId == f.category.value)
    && (f.minPrice.None? || f.minPrice.value <= p.price)
    && (f.maxPrice.None? || p.price <= f.maxPrice.value)
  }

  /** Every matching product, in store order. */
  function Matching(products: seq<Product>, f: Filters): (r: seq<Product>)
    ensures forall p :: p in r <==> p in products && Listed(f, p)
  {
    Filter(products, (p: Product) => Listed(f, p))
  }

  /** Offset of a page: `paginate` treats a page number below 1 as page 1. */
  function PageStart(page: int): (n: nat)
    ensures page <= 1 ==> n == 0
    ensures page >= 1 ==> n == (page - 1) * PerPage
  {
    if page < 1 then 0 else (page - 1) * PerPage
  }

  /** `query.paginate(page=page, per_page=12, error_out=False).items`. */
  function ListProducts(products: seq<Product>, f: Filters, page: int): (r: seq<Product>)
    ensures |r| <= PerPage
    ensures forall p :: p in r ==> p in products && Listed(f, p)
  {
    var m := Matching(products, f);
    var start := PageStart(page);
    if |m| <= start then []
    else m[start..if start + PerPage <= |m| then start + PerPage else |m|]
  }

  /**
   * A page is the slice of the matches that starts at its offset: full when
   * twelve or more remain, the remainder otherwise, empty past the end.
   */
  lemma PageIsSliceOfMatches(products: seq<Product>, f: Filters, page: int)
    ensures var m := Matching(products, f);
            var r := ListProducts(products, f, page);
            var start := PageStart(page);
            && (start + PerPage <= |m| ==> |r| == PerPage)
            && (start < |m| < start + PerPage ==> |r| == |m| - start)
            && (|m| <= start ==> r == [])
            && forall k :: 0 <= k < |r| ==> start + k < |m| && r[k] == m[start + k]
  {
  }

  /** Every match appears on exactly the page its position says. */
  lemma EveryMatchIsOnItsPage(products: seq<Product>, f: Filters, j: nat)
    requires j < |Matching(products, f)|
    ensures var r := ListProducts(products, f, j / PerPage + 1);
            j % PerPage < |r| && r[j % PerPage] == Matching(products, f)[j]
  {
    var page := j / PerPage + 1;
    assert PageStart(page) == (j / PerPage) * PerPage;
    assert PageStart(page) + j % PerPage == j;
  }

  /** Page 0 and negative pages show page 1. */
  lemma PageBelowOneIsFirstPage(products: seq<Product>, f: Filters, page: int)
    requires page < 1
    ensures ListProducts(products, f, page) == ListProducts(products, f, 1)
  {
  }

  /** Filters that agree on every product match the same products. */
  lemma {:induction false} MatchingSame(products: seq<Product>, f: Filters, g: Filters)
    requires forall p :: p in products ==> Listed(f, p) == Listed(g, p)
    ensures Matching(products, f) == Matching(products, g)
  {
    if products != [] {
      MatchingSame(products[1..], f, g);
    }
  }

  /** `?category=0` is falsy and filters nothing, exactly like no category. */
  lemma CategoryZeroIsNoFilter(products: seq<Product>, f: Filters, page: int)
    ensures ListProducts(products, f.(category := Some(0)), page) == ListProducts(products, f.(category := None), page)
  {
    MatchingSame(products, f.(category := Some(0)), f.(category := None));
  }

  // ---------------------------------------------------------------------
  // /product_stats
  // ---------------------------------------------------------------------

  /** `count(OrderItem.id)` for one product: its order items, zero if none. */
  function OrderCount(orderItems: seq<OrderItem>, productId: Id): (n: nat)
    ensures n == 0 <==> forall it :: it in orderItems ==> it.productId != productId
  {
    Count(orderItems, (it: OrderItem) => it.productId == productId)
  }

  datatype StatRow = StatRow(product: Product, categoryName: string, creatorName: string, orderCount: nat)

  /** The product's category and creator both exist (the two inner joins match). */
  predicate Resolves(p: Product, categories: seq<Category>, users: seq<User>)
  {
    FindCategory(categories, p.categoryId).Some? && FindUser(users, p.createdBy).Some?
  }

  function ResolvesIn(categories: seq<Category>, users: seq<User>): Product -> bool
  {
    (p: Product) => Resolves(p, categories, users)
  }

  /**
   * Product JOIN Category JOIN User LEFT JOIN OrderItem, grouped by product:
   * one row per product whose category and creator exist, carrying their
   * names and the number of order items, in product order.
   */
  function ProductStats(products: seq<Product>, categories: seq<Category>, users: seq<User>,
                        orderItems: seq<OrderItem>): (r: seq<StatRow>)
    ensures |r| <= |products|
    ensures forall row :: row in r ==>
              && row.product in products
              && Resolves(row.product, categories, users)
              && row.categoryName == categories[FindCategory(categories, row.product.categoryId).value].name
              && row.creatorName == users[FindUser(users, row.product.createdBy).value].username
              && row.orderCount == OrderCount(orderItems, row.product.id)
    ensures forall p :: p in products && Resolves(p, categories, users) ==>
              exists row :: row in r && row.product == p
  {
    if products == [] then []
    else
      var p := products[0];
      var rest := ProductStats(products[1..], categories, users, orderItems);
      assert products == [p] + products[1..];
      if Resolves(p, categories, users) then
        var row := StatRow(p, categories[FindCategory(categories, p.categoryId).value].name,
                           users[FindUser(users, p.createdBy).value].username, OrderCount(orderItems, p.id));
        assert row in [row] + rest;
        [row] + rest
      else rest
  }

  /** The product column of the statistics rows. */
  function ProductsOf(rows: seq<StatRow>): (ps: seq<Product>)
    ensures |ps| == |rows|
    ensures forall i :: 0 <= i < |rows| ==> ps[i] == rows[i].product
  {
    if rows == [] then [] else [rows[0].product] + ProductsOf(rows[1..])
  }

  lemma {:induction false} ProductsOfKept(products: seq<Product>, categories: seq<Category>,
                                          users: seq<User>, orderItems: seq<OrderItem>)
    ensures ProductsOf(ProductStats(products, categories, users, orderItems))
            == Filter(products, ResolvesIn(categories, users))
  {
    if products != [] {
      ProductsOfKept(products[1..], categories, users, orderItems);
      FilterStep(products, ResolvesIn(categories, users));
      var r := ProductStats(products, categories, users, orderItems);
      if Resolves(products[0], categories, users) {
        assert r[1..] == ProductStats(products[1..], categories, users, orderItems);
      } else {
        assert r == ProductStats(products[1..], categories, users, orderItems);
      }
    }
  }

  /**
   * Exactly one row per resolving product, in product order: the rows' products
   * are the products the joins keep, so no product is listed twice.
   */
  lemma ProductStatsFollowProducts(products: seq<Product>, categories: seq<Category>,
                                   users: seq<User>, orderItems: seq<OrderItem>)
    ensures var r := ProductStats(products, categories, users, orderItems);
            var kept := Filter(products, ResolvesIn(categories, users));
            && |r| == |kept|
            && forall i :: 0 <= i < |r| ==> r[i].product == kept[i]
  {
    ProductsOfKept(products, categories, users, orderItems);
  }

  /** Order items of all the listed products, one product at a time. */
  function ItemsCounted(products: seq<Product>, orderItems: seq<OrderItem>): nat
  {
    if products == [] then 0 else OrderCount(orderItems, products[0].id) + ItemsCounted(products[1..], orderItems)
  }

  /** How many of the products carry the id. */
  function IdHits(products: seq<Product>, id: Id): nat
  {
    if products == [] then 0 else (if products[0].id == id then 1 else 0) + IdHits(products[1..], id)
  }

  lemma {:induction false} IdHitsOfUniqueId(products: seq<Product>, id: Id)
    requires Unique(products, ProductKey)
    ensures IdHits(products, id) == if exists p :: p in products && p.id == id then 1 else 0
  {
    if products != [] {
      var rest := products[1..];
      assert forall p :: p in products <==> p == products[0] || p in rest by {
        assert products == [products[0]] + rest;
      }
      UniqueTail(products, ProductKey);
      IdHitsOfUniqueId(rest, id);
    }
  }

  lemma {:induction false} ItemsCountedAppend(products: seq<Product>, orderItems: seq<OrderItem>, it: OrderItem)
    ensures ItemsCounted(products, orderItems + [it]) == ItemsCounted(products, orderItems) + IdHits(products, it.productId)
  {
    if products != [] {
      ItemsCountedAppend(products[1..], orderItems, it);
      FilterAppend(orderItems, it, (x: OrderItem) => x.productId == products[0].id);
    }
  }

  /**
   * With unique product ids and every item referring to a product, the
   * per-product counts add up to the number of order items: each item is
   * counted once, under its own product.
   */
  lemma {:induction false} EveryItemCountedOnce(products: seq<Product>, orderItems: seq<OrderItem>)
    requires Unique(products, ProductKey)
    requires forall it :: it in orderItems ==> exists p :: p in products && p.id == it.productId
    ensures ItemsCounted(products, orderItems) == |orderItems|
  {
    if orderItems == [] {
      if products != [] {
        UniqueTail(products, ProductKey);
        EveryItemCountedOnce(products[1..], orderItems);
      }
    } else {
      var init := orderItems[..|orderItems| - 1];
      var last := orderItems[|orderItems| - 1];
      assert orderItems == init + [last];
      assert forall it :: it in init ==> it in orderItems;
      EveryItemCountedOnce(products, init);
      ItemsCountedAppend(products, init, last);
      IdHitsOfUniqueId(products, last.productId);
    }
  }

  /** The statistics page accounts for every order item when every product resolves. */
  lemma {:induction false} StatsSumToAllItems(products: seq<Product>, categories: seq<Category>, users: seq<User>,
                                              orderItems: seq<OrderItem>)
    requires forall p :: p in products ==> Resolves(p, categories, users)
    ensures SumOf(ProductStats(products, categories, users, orderItems), (row: StatRow) => row.orderCount)
            == ItemsCounted(products, orderItems)
  {
    if products != [] {
      assert forall p :: p in products[1..] ==> p in products;
      StatsSumToAllItems(products[1..], categories, users, orderItems);
    }
  }

  // ---------------------------------------------------------------------
  // /top_products
  // ---------------------------------------------------------------------

  /** LIMIT of each ranking. */
  const TopLimit: nat := 10

  function PriceKey(p: Product): Option<int> { Some(p.price) }
  function CreatedKey(p: Product): Option<int> { p.createdAt }

  datatype Popular = Popular(product: Product, orderCount: nat)

  function PopularKey(x: Popular): Option<int> { Some(x.orderCount) }

  /** Product JOIN OrderItem grouped by product: only products with at least one item. */
  function Popularity(products: seq<Product>, orderItems: seq<OrderItem>): (r: seq<Popular>)
    ensures forall x :: x in r ==> x.product in products && x.orderCount == OrderCount(orderItems, x.product.id)
    ensures forall x :: x in r ==> x.orderCount >= 1
    ensures forall p :: p in products && OrderCount(orderItems, p.id) >= 1 ==>
              Popular(p, OrderCount(orderItems, p.id)) in r
  {
    if products == [] then []
    else
      var p := products[0];
      var rest := Popularity(products[1..], orderItems);
      assert products == [p] + products[1..];
      if OrderCount(orderItems, p.id) >= 1 then [Popular(p, OrderCount(orderItems, p.id))] + rest else rest
  }

  /** The four rankings. Unpublished products take part in all of them. */
  datatype Rankings = Rankings(mostExpensive: seq<Product>, cheapest: seq<Product>,
                               mostPopular: seq<Popular>, oldest: seq<Product>)

  function MostExpensive(products: seq<Product>): seq<Product> { TopBy(products, PriceKey, true, TopLimit) }
  function Cheapest(products: seq<Product>): seq<Product> { TopBy(products, PriceKey, false, TopLimit) }
  function Oldest(products: seq<Product>): seq<Product> { TopBy(products, CreatedKey, false, TopLimit) }
  function MostPopular(products: seq<Product>, orderItems: seq<OrderItem>): seq<Popular>
  {
    TopBy(Popularity(products, orderItems), PopularKey, true, TopLimit)
  }

  function TopProducts(products: seq<Product>, orderItems: seq<OrderItem>): Rankings
  {
    Rankings(MostExpensive(products), Cheapest(products), MostPopular(products, orderItems), Oldest(products))
  }

  /** min(10, |products|) entries, from the table: the three rankings over all products. */
  lemma RankingSizes(products: seq<Product>)
    ensures var n := if |products| <= TopLimit then |products| else TopLimit;
            && |MostExpensive(products)| == n && |Cheapest(products)| == n && |Oldest(products)| == n
            && multiset(MostExpensive(products)) <= multiset(products)
            && multiset(Cheapest(products)) <= multiset(products)
            && multiset(Oldest(products)) <= multiset(products)
  {
    TopByIsTopK(products, PriceKey, true, TopLimit);
    TopByIsTopK(products, PriceKey, false, TopLimit);
    TopByIsTopK(products, CreatedKey, false, TopLimit);
  }

  /** A list in `Ordered` form, read as prices: high to low, or low to high. */
  lemma OrderedPrices(r: seq<Product>, desc: bool)
    requires Ordered(r, PriceKey, desc)
    ensures desc ==> forall i, j :: 0 <= i < j < |r| ==> r[j].price <= r[i].price
    ensures !desc ==> forall i, j :: 0 <= i < j < |r| ==> r[i].price <= r[j].price
  {
    forall i, j | 0 <= i < j < |r| ensures InOrder(r[i], r[j], PriceKey, desc) { }
  }

  /** What `TopByIsTopK` says about a price ranking, read as prices. */
  lemma PriceRanks(products: seq<Product>, r: seq<Product>, desc: bool)
    requires Ordered(r, PriceKey, desc)
    requires forall x, y :: x in r && y in multiset(products) - multiset(r) ==> InOrder(x, y, PriceKey, desc)
    ensures desc ==> forall x, y :: x in r && y in multiset(products) - multiset(r) ==> y.price <= x.price
    ensures !desc ==> forall x, y :: x in r && y in multiset(products) - multiset(r) ==> x.price <= y.price
  {
    forall x, y | x in r && y in multiset(products) - multiset(r) ensures InOrder(x, y, PriceKey, desc) { }
  }

  /** Most expensive: price high to low, and no product left out costs more than one shown. */
  lemma MostExpensiveRanks(products: seq<Product>)
    ensures var r := MostExpensive(products);
            && (forall i, j :: 0 <= i < j < |r| ==> r[j].price <= r[i].price)
            && (forall x, y :: x in r && y in multiset(products) - multiset(r) ==> y.price <= x.price)
  {
    var r := MostExpensive(products);
    TopByIsTopK(products, PriceKey, true, TopLimit);
    OrderedPrices(r, true);
    PriceRanks(products, r, true);
  }

  /** Cheapest: price low to high, and no product left out costs less than one shown. */
  lemma CheapestRanks(products: seq<Product>)
    ensures var r := Cheapest(products);
            && (forall i, j :: 0 <= i < j < |r| ==> r[i].price <= r[j].price)
            && (forall x, y :: x in r && y in multiset(products) - multiset(r) ==> x.price <= y.price)
  {
    var r := Cheapest(products);
    TopByIsTopK(products, PriceKey, false, TopLimit);
    OrderedPrices(r, false);
    PriceRanks(products, r, false);
  }

  /** Oldest: creation time ascending with unknown times last, none older left out. */
  lemma OldestRanks(products: seq<Product>)
    ensures var r := Oldest(products);
            && (forall i, j :: 0 <= i < j < |r| ==> KeyLe(r[i].createdAt, r[j].createdAt))
            && (forall x, y :: x in r && y in multiset(products) - multiset(r) ==> KeyLe(x.createdAt, y.createdAt))
  {
    var r := Oldest(products);
    TopByIsTopK(products, CreatedKey, false, TopLimit);
    forall i, j | 0 <= i < j < |r| ensures KeyLe(r[i].createdAt, r[j].createdAt) {
      assert InOrder(r[i], r[j], CreatedKey, false);
    }
    forall x, y | x in r && y in multiset(products) - multiset(r) ensures KeyLe(x.createdAt, y.createdAt) {
      assert InOrder(x, y, CreatedKey, false);
    }
  }

  /** A list in `Ordered` form, read as order counts high to low. */
  lemma OrderedCounts(r: seq<Popular>)
    requires Ordered(r, PopularKey, true)
    ensures forall i, j :: 0 <= i < j < |r| ==> r[j].orderCount <= r[i].orderCount
  {
    forall i, j | 0 <= i < j < |r| ensures InOrder(r[i], r[j], PopularKey, true) { }
  }

  lemma TopPopularRanks(pop: seq<Popular>)
    ensures var r := TopBy(pop, PopularKey, true, TopLimit);
            && (forall i, j :: 0 <= i < j < |r| ==> r[j].orderCount <= r[i].orderCount)
            && (forall x, y :: x in r && y in multiset(pop) - multiset(r) ==> y.orderCount <= x.orderCount)
  {
    var r := TopBy(pop, PopularKey, true, TopLimit);
    TopByIsTopK(pop, PopularKey, true, TopLimit);
    OrderedCounts(r);
    forall x: Popular, y: Popular | x in r && y in multiset(pop) - multiset(r) ensures y.orderCount <= x.orderCount {
      assert InOrder(x, y, PopularKey, true);
    }
  }

  /** Most popular: at most ten products that have order items, each shown with its item count. */
  lemma MostPopularEntries(products: seq<Product>, orderItems: seq<OrderItem>)
    ensures var r := MostPopular(products, orderItems);
            && |r| <= TopLimit
            && (forall x :: x in r ==> x.product in products && x.orderCount >= 1)
            && (forall x :: x in r ==> x.orderCount == OrderCount(orderItems, x.product.id))
  {
    var pop := Popularity(products, orderItems);
    var r := MostPopular(products, orderItems);
    TopByIsTopK(pop, PopularKey, true, TopLimit);
    forall x | x in r ensures x in pop {
      assert x in multiset(r);
    }
  }

  /**
   * Most popular, ordered by item count high to low; no sold product left
   * out has a higher count than one shown.
   */
  lemma MostPopularRanks(products: seq<Product>, orderItems: seq<OrderItem>)
    ensures var r := MostPopular(products, orderItems);
            var pop := Popularity(products, orderItems);
            && (forall i, j :: 0 <= i < j < |r| ==> r[j].orderCount <= r[i].orderCount)
            && (forall x, y :: x in r && y in multiset(pop) - multiset(r) ==> y.orderCount <= x.orderCount)
  {
    var pop := Popularity(products, orderItems);
    TopPopularRanks(pop);
  }

  // ---------------------------------------------------------------------
  // /dashboard
  // ---------------------------------------------------------------------

  /** Orders a seller's dashboard counts. */
  function SoldBy(orders: seq<Order>, sellerId: Id): (r: seq<Order>)
    ensures forall o :: o in r <==> o in orders && o.sellerId == sellerId
  {
    Filter(orders, (o: Order) => o.sellerId == sellerId)
  }

  /** Orders a customer placed. */
  function PlacedBy(orders: seq<Order>, userId: Id): (r: seq<Order>)
    ensures forall o :: o in r <==> o in orders && o.userId == userId
  {
    Filter(orders, (o: Order) => o.userId == userId)
  }

  function OrderCreatedKey(o: Order): Option<int> { Some(o.createdAt) }

  /** Limit of the customer's recent-orders list. */
  const RecentLimit: nat := 5

  /** `filter_by(user_id=...).order_by(created_at.desc()).limit(5)`. */
  function LatestPlacedBy(orders: seq<Order>, userId: Id): seq<Order>
  {
    TopBy(PlacedBy(orders, userId), OrderCreatedKey, true, RecentLimit)
  }

  /** A seller (role id 2) sees totals over orders they sold; anyone else their latest orders. */
  datatype Dashboard = SellerTotals(totalOrders: nat, totalSales: Cents) | RecentOrders(orders: seq<Order>)

  function UserDashboard(orders: seq<Order>, caller: User): (r: Dashboard)
    ensures r.SellerTotals? <==> caller.roleId == 2
    ensures r.SellerTotals? ==> r.totalOrders == |SoldBy(orders, caller.id)|
                                && r.totalSales == SumOf(SoldBy(orders, caller.id), (o: Order) => o.totalAmount)
    ensures r.SellerTotals? && SoldBy(orders, caller.id) == [] ==> r.totalSales == 0
  {
    if caller.roleId == 2 then
      SellerTotals(Count(orders, (o: Order) => o.sellerId == caller.id),
                   SumOf(SoldBy(orders, caller.id), (o: Order) => o.totalAmount))
    else
      RecentOrders(LatestPlacedBy(orders, caller.id))
  }

  /** A list in `Ordered` form, read as creation times newest first. */
  lemma OrderedNewestFirst(r: seq<Order>)
    requires Ordered(r, OrderCreatedKey, true)
    ensures forall i, j :: 0 <= i < j < |r| ==> r[j].createdAt <= r[i].createdAt
  {
    forall i, j | 0 <= i < j < |r| ensures InOrder(r[i], r[j], OrderCreatedKey, true) { }
  }

  lemma NewestFirst(own: seq<Order>)
    ensures var r := TopBy(own, OrderCreatedKey, true, RecentLimit);
            && (forall i, j :: 0 <= i < j < |r| ==> r[j].createdAt <= r[i].createdAt)
            && (forall o, y :: o in r && y in multiset(own) - multiset(r) ==> y.createdAt <= o.createdAt)
  {
    var r := TopBy(own, OrderCreatedKey, true, RecentLimit);
    TopByIsTopK(own, OrderCreatedKey, true, RecentLimit);
    OrderedNewestFirst(r);
    forall o: Order, y: Order | o in r && y in multiset(own) - multiset(r) ensures y.createdAt <= o.createdAt {
      assert InOrder(o, y, OrderCreatedKey, true);
    }
  }

  lemma LatestPlacedByContents(orders: seq<Order>, userId: Id)
    ensures var r := LatestPlacedBy(orders, userId);
            var own := PlacedBy(orders, userId);
            && |r| == (if |own| <= RecentLimit then |own| else RecentLimit)
            && (forall o :: o in r ==> o in orders && o.userId == userId)
  {
    var own := PlacedBy(orders, userId);
    var r := LatestPlacedBy(orders, userId);
    TopByIsTopK(own, OrderCreatedKey, true, RecentLimit);
    forall o | o in r ensures o in own {
      assert o in multiset(r);
    }
  }

  /** A customer's list: at most five of their own orders, newest first, none newer left out. */
  lemma RecentOrdersAreLatestOwn(orders: seq<Order>, caller: User)
    requires caller.roleId != 2
    ensures var r := UserDashboard(orders, caller).orders;
            var own := PlacedBy(orders, caller.id);
            && |r| == (if |own| <= RecentLimit then |own| else RecentLimit)
            && (forall o :: o in r ==> o in orders && o.userId == caller.id)
            && (forall i, j :: 0 <= i < j < |r| ==> r[j].createdAt <= r[i].createdAt)
            && (forall o, y :: o in r && y in multiset(own) - multiset(r) ==> y.createdAt <= o.createdAt)
  {
    assert UserDashboard(orders, caller).orders == LatestPlacedBy(orders, caller.id);
    LatestPlacedByContents(orders, caller.id);
    NewestFirst(PlacedBy(orders, caller.id));
  }

  /** One more order counts once, with its total, for its own seller only. */
  lemma SellerTotalsAppend(orders: seq<Order>, o: Order, seller: User)
    requires seller.roleId == 2
    ensures var before := UserDashboard(orders, seller);
            var after := UserDashboard(orders + [o], seller);
            && after.totalOrders == before.totalOrders + (if o.sellerId == seller.id then 1 else 0)
            && after.totalSales == before.totalSales + (if o.sellerId == seller.id then o.totalAmount else 0)
  {
    FilterAppend(orders, o, (x: Order) => x.sellerId == seller.id);
    SumOfAppend(SoldBy(orders, seller.id), if o.sellerId == seller.id then [o] else [], (x: Order) => x.totalAmount);
  }

  /**
   * A placed order shows on exactly one seller's dashboard, the creator of
   * the first cart row's product: that seller's order count goes up by one
   * and their sales by the order total; every other seller's figures stay
   * as they were, even when the cart held their products too.
   */
  lemma CheckoutCreditsOneSeller(products: seq<Product>, carts: seq<CartRow>, orders: seq<Order>,
                                 orderItems: seq<OrderItem>, userId: Id, now: Time, seller: User)
    requires seller.roleId == 2
    requires PlaceOrder(products, carts, orders, orderItems, userId, now).outcome.Placed?
    ensures var t := PlaceOrder(products, carts, orders, orderItems, userId, now);
            var o := t.orders[|orders|];
            var before := UserDashboard(orders, seller);
            var after := UserDashboard(t.orders, seller);
            && after.totalOrders == before.totalOrders + (if o.sellerId == seller.id then 1 else 0)
            && after.totalSales == before.totalSales + (if o.sellerId == seller.id then o.totalAmount else 0)
  {
    var t := PlaceOrder(products, carts, orders, orderItems, userId, now);
    PlacedOrderFields(products, carts, orders, orderItems, userId, now);
    var o := t.orders[|orders|];
    assert t.orders == orders + [o];
    SellerTotalsAppend(orders, o, seller);
  }
}
