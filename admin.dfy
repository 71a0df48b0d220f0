/**
 * The admin panel: the `_is_admin` gate, the four management actions that
 * load one row, assign one field and commit, and the queries behind the
 * admin dashboard and the management page.
 */
module AdminPanel {
  import opened Wrappers
  import opened Rows
  import opened Text
  import opened Models
  import opened Store

  /**
   * `_is_admin()`: an authenticated caller (`Some`) whose role exists, has a
   * non-empty name, and whose name lower-cased (not trimmed) is "admin".
   */
  predicate IsAdminCaller(roles: seq<Role>, caller: Option<User>)
  {
    && caller.Some?
    && RoleOf(roles, caller.value).Some?
    && RoleOf(roles, caller.value).value.name != ""
    && Lower(RoleOf(roles, caller.value).value.name) == "admin"
  }

  /** The management gate and `User.is_admin` agree on every signed-in user; nobody anonymous passes. */
  lemma AdminGateIsIsAdmin(roles: seq<Role>, caller: Option<User>)
    ensures IsAdminCaller(roles, caller) <==> caller.Some? && IsAdmin(roles, caller.value)
  {
    if caller.Some? && RoleOf(roles, caller.value).Some? {
      var name := RoleOf(roles, caller.value).value.name;
      if name == "" {
        assert Lower(name) == "";
      }
    }
  }

  /** "ADMIN" passes the gate; " admin" does not, because the name is not trimmed. */
  lemma AdminGateIsCaseBlindButNotTrimmed(u: User)
    ensures IsAdminCaller([Role(u.roleId, "ADMIN")], Some(u))
    ensures !IsAdminCaller([Role(u.roleId, " admin")], Some(u))
  {
    assert Lower(" admin")[0] == ' ';
    assert Lower("ADMIN") == "admin";
  }

  // ---------------------------------------------------------------------
  // The four management actions
  // ---------------------------------------------------------------------

  /**
   * Redirect back to the management page (`Done`), to the login page
   * (`Denied`), 404 for a missing id, or an error page when the commit
   * raises (`Failed`).
   */
  datatype Reply = Done | Denied | NotFound | Failed

  datatype UserChange = UserChange(reply: Reply, users: seq<User>)
  datatype OrderChange = OrderChange(reply: Reply, orders: seq<Order>)
  datatype ProductChange = ProductChange(reply: Reply, products: seq<Product>)

  /**
   * `change_user_role`: set `role_id` to the id of the role named exactly
   * `roleName`; with no such role (or no name at all) nothing changes.
   * `updated_at` is refreshed only when the role id actually changes, since
   * an unchanged value issues no UPDATE.
   */
  function ChangeUserRole(users: seq<User>, roles: seq<Role>, caller: Option<User>, userId: Id,
                          roleName: Option<string>, now: Time): (r: UserChange)
    ensures r.reply != Done ==> r.users == users
    ensures !IsAdminCaller(roles, caller) <==> r.reply == Denied
    ensures r.reply == NotFound <==> IsAdminCaller(roles, caller) && FindUser(users, userId).None?
    ensures r.reply != Failed
    ensures r.reply == Done && (roleName.None? || FindRoleByName(roles, roleName.value).None?) ==> r.users == users
    ensures r.reply == Done && roleName.Some? && FindRoleByName(roles, roleName.value).Some? ==>
              var i := FindUser(users, userId).value;
              var role := roles[FindRoleByName(roles, roleName.value).value];
              && |r.users| == |users|
              && r.users[i].roleId == role.id
              && r.users[i] == users[i].(roleId := role.id, updatedAt := r.users[i].updatedAt)
              && r.users[i].updatedAt == (if users[i].roleId == role.id then users[i].updatedAt else Some(now))
              && forall j :: 0 <= j < |users| && j != i ==> r.users[j] == users[j]
  {
    if !IsAdminCaller(roles, caller) then UserChange(Denied, users)
    else match FindUser(users, userId)
      case None => UserChange(NotFound, users)
      case Some(i) =>
        if roleName.None? then UserChange(Done, users)
        else match FindRoleByName(roles, roleName.value)
          case None => UserChange(Done, users)
          case Some(j) =>
            if users[i].roleId == roles[j].id then UserChange(Done, users)
            else UserChange(Done, users[i := users[i].(roleId := roles[j].id, updatedAt := Some(now))])
  }

  /** `not bool(x)` on a nullable boolean: NULL counts as false. */
  function Flip(b: Option<bool>): (r: Option<bool>)
    ensures r.Some? && r.value == !b.GetOr(false)
  {
    Some(!b.GetOr(false))
  }

  /** Flipping twice restores a stored boolean, and turns NULL into false. */
  lemma FlipTwice(b: Option<bool>)
    ensures Flip(Flip(b)) == if b.None? then Some(false) else b
  {
  }

  /** `toggle_user_active`: flip `is_active`; `updated_at` becomes now. */
  function ToggleUserActive(users: seq<User>, roles: seq<Role>, caller: Option<User>, userId: Id, now: Time)
    : (r: UserChange)
    ensures r.reply != Done ==> r.users == users
    ensures !IsAdminCaller(roles, caller) <==> r.reply == Denied
    ensures r.reply == NotFound <==> IsAdminCaller(roles, caller) && FindUser(users, userId).None?
    ensures r.reply != Failed
    ensures r.reply == Done ==>
              var i := FindUser(users, userId).value;
              && |r.users| == |users|
              && r.users[i] == users[i].(isActive := Some(!users[i].isActive.GetOr(false)), updatedAt := Some(now))
              && forall j :: 0 <= j < |users| && j != i ==> r.users[j] == users[j]
  {
    if !IsAdminCaller(roles, caller) then UserChange(Denied, users)
    else match FindUser(users, userId)
      case None => UserChange(NotFound, users)
      case Some(i) => UserChange(Done, users[i := users[i].(isActive := Flip(users[i].isActive), updatedAt := Some(now))])
  }

  /**
   * Toggling a user twice gives back the same table except for that user's
   * `updated_at`, when `is_active` was a stored boolean.
   */
  lemma ToggleUserTwice(users: seq<User>, roles: seq<Role>, caller: Option<User>, userId: Id, now: Time, later: Time)
    requires ToggleUserActive(users, roles, caller, userId, now).reply == Done
    requires users[FindUser(users, userId).value].isActive.Some?
    ensures var once := ToggleUserActive(users, roles, caller, userId, now);
            var twice := ToggleUserActive(once.users, roles, caller, userId, later);
            var i := FindUser(users, userId).value;
            && twice.reply == Done
            && twice.users == users[i := users[i].(updatedAt := Some(later))]
  {
    var once := ToggleUserActive(users, roles, caller, userId, now);
    var i := FindUser(users, userId).value;
    assert FindUser(once.users, userId) == Some(i) by {
      assert forall j :: 0 <= j < |users| ==> once.users[j].id == users[j].id;
    }
    FlipTwice(users[i].isActive);
  }

  /**
   * `update_order_status`: store the given status verbatim. The column is
   * NOT NULL and at most 50 characters, so an absent or longer status makes
   * the commit raise and nothing changes.
   */
  function UpdateOrderStatus(orders: seq<Order>, roles: seq<Role>, caller: Option<User>, orderId: Id,
                             status: Option<string>): (r: OrderChange)
    ensures r.reply != Done ==> r.orders == orders
    ensures !IsAdminCaller(roles, caller) <==> r.reply == Denied
    ensures r.reply == NotFound <==> IsAdminCaller(roles, caller) && FindOrder(orders, orderId).None?
    ensures r.reply == Failed <==> IsAdminCaller(roles, caller) && FindOrder(orders, orderId).Some?
                                   && !(status.Some? && FitsVarchar(status.value, 50))
    ensures r.reply == Done ==>
              var i := FindOrder(orders, orderId).value;
              && |r.orders| == |orders|
              && r.orders[i] == orders[i].(status := status.value)
              && forall j :: 0 <= j < |orders| && j != i ==> r.orders[j] == orders[j]
  {
    if !IsAdminCaller(roles, caller) then OrderChange(Denied, orders)
    else match FindOrder(orders, orderId)
      case None => OrderChange(NotFound, orders)
      case Some(i) =>
        if status.None? || !FitsVarchar(status.value, 50) then OrderChange(Failed, orders)
        else OrderChange(Done, orders[i := orders[i].(status := status.value)])
  }

  /** `toggle_product_publish`: flip `is_published`. */
  function ToggleProductPublish(products: seq<Product>, roles: seq<Role>, caller: Option<User>, productId: Id)
    : (r: ProductChange)
    ensures r.reply != Done ==> r.products == products
    ensures !IsAdminCaller(roles, caller) <==> r.reply == Denied
    ensures r.reply == NotFound <==> IsAdminCaller(roles, caller) && FindProduct(products, productId).None?
    ensures r.reply != Failed
    ensures r.reply == Done ==>
              var i := FindProduct(products, productId).value;
              && |r.products| == |products|
              && r.products[i] == products[i].(isPublished := Some(!products[i].isPublished.GetOr(false)))
              && forall j :: 0 <= j < |products| && j != i ==> r.products[j] == products[j]
  {
    if !IsAdminCaller(roles, caller) then ProductChange(Denied, products)
    else match FindProduct(products, productId)
      case None => ProductChange(NotFound, products)
      case Some(i) => ProductChange(Done, products[i := products[i].(isPublished := Flip(products[i].isPublished))])
  }

  /** Toggling a product twice restores the table when `is_published` was a stored boolean. */
  lemma ToggleProductTwice(products: seq<Product>, roles: seq<Role>, caller: Option<User>, productId: Id)
    requires ToggleProductPublish(products, roles, caller, productId).reply == Done
    requires products[FindProduct(products, productId).value].isPublished.Some?
    ensures var once := ToggleProductPublish(products, roles, caller, productId);
            ToggleProductPublish(once.products, roles, caller, productId) == ProductChange(Done, products)
  {
    var once := ToggleProductPublish(products, roles, caller, productId);
    var i := FindProduct(products, productId).value;
    assert FindProduct(once.products, productId) == Some(i) by {
      assert forall j :: 0 <= j < |products| ==> once.products[j].id == products[j].id;
    }
    FlipTwice(products[i].isPublished);
    assert products[i := products[i]] == products;
  }

  method ChangeUserRoleHandler(db: Database, caller: Option<User>, userId: Id, roleName: Option<string>, now: Time)
    returns (reply: Reply)
    requires db.Valid()
    modifies db`users
    ensures db.Valid()
    ensures UserChange(reply, db.users) == ChangeUserRole(old(db.users), db.roles, caller, userId, roleName, now)
  {
    if !IsAdminCaller(db.roles, caller) {
      return Denied;
    }
    var found := FindUser(db.users, userId);
    if found.None? {
      return NotFound;
    }
    var i := found.value;
    reply := Done;
    if roleName.None? {
      return;
    }
    var role := FindRoleByName(db.roles, roleName.value);
    if role.Some? && db.users[i].roleId != db.roles[role.value].id {
      var user := db.users[i].(roleId := db.roles[role.value].id, updatedAt := Some(now));
      UniqueUpdate(db.users, i, user, UserKey);
      UniqueUpdate(db.users, i, user, Username);
      UniqueUpdate(db.users, i, user, Email);
      db.users := db.users[i := user];
    }
  }

  method ToggleUserActiveHandler(db: Database, caller: Option<User>, userId: Id, now: Time) returns (reply: Reply)
    requires db.Valid()
    modifies db`users
    ensures db.Valid()
    ensures UserChange(reply, db.users) == ToggleUserActive(old(db.users), db.roles, caller, userId, now)
  {
    if !IsAdminCaller(db.roles, caller) {
      return Denied;
    }
    var found := FindUser(db.users, userId);
    if found.None? {
      return NotFound;
    }
    var i := found.value;
    var user := db.users[i].(isActive := Flip(db.users[i].isActive), updatedAt := Some(now));
    UniqueUpdate(db.users, i, user, UserKey);
    UniqueUpdate(db.users, i, user, Username);
    UniqueUpdate(db.users, i, user, Email);
    db.users := db.users[i := user];
    reply := Done;
  }

  method UpdateOrderStatusHandler(db: Database, caller: Option<User>, orderId: Id, status: Option<string>)
    returns (reply: Reply)
    requires db.Valid()
    modifies db`orders
    ensures db.Valid()
    ensures OrderChange(reply, db.orders) == UpdateOrderStatus(old(db.orders), db.roles, caller, orderId, status)
  {
    if !IsAdminCaller(db.roles, caller) {
      return Denied;
    }
    var found := FindOrder(db.orders, orderId);
    if found.None? {
      return NotFound;
    }
    if status.None? || !FitsVarchar(status.value, 50) {
      return Failed;
    }
    var i := found.value;
    var order := db.orders[i].(status := status.value);
    UniqueUpdate(db.orders, i, order, OrderKey);
    db.orders := db.orders[i := order];
    reply := Done;
  }

  method ToggleProductPublishHandler(db: Database, caller: Option<User>, productId: Id) returns (reply: Reply)
    requires db.Valid()
    modifies db`products
    ensures db.Valid()
    ensures ProductChange(reply, db.products) == ToggleProductPublish(old(db.products), db.roles, caller, productId)
  {
    if !IsAdminCaller(db.roles, caller) {
      return Denied;
    }
    var found := FindProduct(db.products, productId);
    if found.None? {
      return NotFound;
    }
    var i := found.value;
    var product := db.products[i].(isPublished := Flip(db.products[i].isPublished));
    UniqueUpdate(db.products, i, product, ProductKey);
    db.products := db.products[i := product];
    reply := Done;
  }

  // ---------------------------------------------------------------------
  // MyAdminIndexView.index and AdminManagementView.index
  // ---------------------------------------------------------------------

  /** `timedelta(days=30)` in seconds. */
  const Window: int := 30 * 24 * 60 * 60

  /** `created_at >= since`: a NULL timestamp never qualifies. */
  predicate CreatedSince(t: Option<Time>, since: Time)
  {
    t.Some? && t.value >= since
  }

  /** `join(Role)` then `lower(trim(Role.name)) == name` (PostgreSQL `trim` strips spaces only). */
  predicate HasRoleNamed(roles: seq<Role>, u: User, name: string)
  {
    RoleOf(roles, u).Some? && Lower(Trim(RoleOf(roles, u).value.name, SqlSpace)) == name
  }

  function UserCreatedKey(u: User): Option<int> { u.createdAt }
  function ProductCreatedKey(p: Product): Option<int> { p.createdAt }
  function OrderCreatedKey(o: Order): Option<int> { Some(o.createdAt) }

  const DashboardLimit: nat := 10
  const ManagementLimit: nat := 50

  datatype Dashboard =
    | LoginRedirect
    | Stats(usersCount: nat, productsCount: nat, ordersCount: nat,
            newOrders: nat, newProducts: nat, newClients: nat, newSellers: nat,
            latestUsers: seq<User>, latestProducts: seq<Product>, latestOrders: seq<Order>)

  /** `created_at >= since` on an order (its `created_at` is NOT NULL). */
  function OrderIsNew(since: Time): Order -> bool
  {
    (o: Order) => CreatedSince(Some(o.createdAt), since)
  }

  function ProductIsNew(since: Time): Product -> bool
  {
    (p: Product) => CreatedSince(p.createdAt, since)
  }

  /** A user created since `since` whose role, trimmed and lower-cased, is `name`. */
  function UserIsNewWithRole(roles: seq<Role>, name: string, since: Time): User -> bool
  {
    (u: User) => HasRoleNamed(roles, u, name) && CreatedSince(u.createdAt, since)
  }

  /**
   * The admin dashboard: anyone but an admin (`User.is_admin`) is sent to
   * the login page; otherwise the three totals, the rows created within the
   * last 30 days, and the ten newest users, products and orders (created
   * time descending, NULL times first as PostgreSQL sorts them).
   */
  function AdminDashboard(users: seq<User>, roles: seq<Role>, products: seq<Product>, orders: seq<Order>,
                          caller: Option<User>, now: Time): (r: Dashboard)
    ensures r.LoginRedirect? <==> !(caller.Some? && IsAdmin(roles, caller.value))
  {
    if !(caller.Some? && IsAdmin(roles, caller.value)) then LoginRedirect
    else
      var since := now - Window;
      Stats(|users|, |products|, |orders|,
            Count(orders, OrderIsNew(since)),
            Count(products, ProductIsNew(since)),
            Count(users, UserIsNewWithRole(roles, "user", since)),
            Count(users, UserIsNewWithRole(roles, "seller", since)),
            TopBy(users, UserCreatedKey, true, DashboardLimit),
            TopBy(products, ProductCreatedKey, true, DashboardLimit),
            TopBy(orders, OrderCreatedKey, true, DashboardLimit))
  }

  /**
   * The totals are the table sizes; each "new" count is at most its total,
   * and a user is never both a new client and a new seller, so the two
   * together are at most the users.
   */
  lemma NewCountsAreBounded(users: seq<User>, roles: seq<Role>, products: seq<Product>, orders: seq<Order>,
                            caller: Option<User>, now: Time)
    requires caller.Some? && IsAdmin(roles, caller.value)
    ensures var d := AdminDashboard(users, roles, products, orders, caller, now);
            && d.usersCount == |users| && d.productsCount == |products| && d.ordersCount == |orders|
            && d.newOrders <= d.ordersCount
            && d.newProducts <= d.productsCount
            && d.newClients + d.newSellers <= d.usersCount
  {
    var since := now - Window;
    CountDisjoint(users, UserIsNewWithRole(roles, "user", since), UserIsNewWithRole(roles, "seller", since));
  }

  /** On empty tables every count on the dashboard is zero. */
  lemma EmptyTablesCountZero(roles: seq<Role>, caller: Option<User>, now: Time)
    requires caller.Some? && IsAdmin(roles, caller.value)
    ensures var d := AdminDashboard([], roles, [], [], caller, now);
            && d.usersCount == 0 && d.productsCount == 0 && d.ordersCount == 0
            && d.newOrders == 0 && d.newProducts == 0 && d.newClients == 0 && d.newSellers == 0
  {
  }

  /** One more order adds one to the total, and one to the new orders exactly when it is at most 30 days old. */
  lemma NewOrderCounted(users: seq<User>, roles: seq<Role>, products: seq<Product>, orders: seq<Order>,
                        caller: Option<User>, now: Time, o: Order)
    requires caller.Some? && IsAdmin(roles, caller.value)
    ensures var before := AdminDashboard(users, roles, products, orders, caller, now);
            var after := AdminDashboard(users, roles, products, orders + [o], caller, now);
            && after.ordersCount == before.ordersCount + 1
            && after.newOrders == before.newOrders + (if o.createdAt >= now - Window then 1 else 0)
            && after.newProducts == before.newProducts
  {
    CountAppend(orders, o, OrderIsNew(now - Window));
  }

  /** One more product adds one to the total, and one to the new products exactly when it is at most 30 days old. */
  lemma NewProductCounted(users: seq<User>, roles: seq<Role>, products: seq<Product>, orders: seq<Order>,
                          caller: Option<User>, now: Time, p: Product)
    requires caller.Some? && IsAdmin(roles, caller.value)
    ensures var before := AdminDashboard(users, roles, products, orders, caller, now);
            var after := AdminDashboard(users, roles, products + [p], orders, caller, now);
            && after.productsCount == before.productsCount + 1
            && after.newProducts == before.newProducts
                                    + (if p.createdAt.Some? && p.createdAt.value >= now - Window then 1 else 0)
            && after.newOrders == before.newOrders
  {
    CountAppend(products, p, ProductIsNew(now - Window));
  }

  /**
   * One more user adds one to the total, one to the new clients exactly when
   * it is at most 30 days old and its role is "user" after trim and
   * lower-case, and likewise for the new sellers and "seller".
   */
  lemma NewUserCounted(users: seq<User>, roles: seq<Role>, products: seq<Product>, orders: seq<Order>,
                       caller: Option<User>, now: Time, u: User)
    requires caller.Some? && IsAdmin(roles, caller.value)
    ensures var before := AdminDashboard(users, roles, products, orders, caller, now);
            var after := AdminDashboard(users + [u], roles, products, orders, caller, now);
            var recent := u.createdAt.Some? && u.createdAt.value >= now - Window;
            && after.usersCount == before.usersCount + 1
            && after.newClients == before.newClients + (if recent && HasRoleNamed(roles, u, "user") then 1 else 0)
            && after.newSellers == before.newSellers + (if recent && HasRoleNamed(roles, u, "seller") then 1 else 0)
  {
    CountAppend(users, u, UserIsNewWithRole(roles, "user", now - Window));
    CountAppend(users, u, UserIsNewWithRole(roles, "seller", now - Window));
  }

  /** `User.query.order_by(created_at.desc()).limit(k)`: the k newest users, NULL times counting as newest. */
  lemma NewestUsers(users: seq<User>, k: nat)
    ensures var r := TopBy(users, UserCreatedKey, true, k);
            && |r| == (if |users| <= k then |users| else k)
            && Ordered(r, UserCreatedKey, true)
            && multiset(r) <= multiset(users)
            && forall x, y :: x in r && y in multiset(users) - multiset(r) ==> KeyLe(y.createdAt, x.createdAt)
  {
    var r := TopBy(users, UserCreatedKey, true, k);
    TopByIsTopK(users, UserCreatedKey, true, k);
    forall x, y | x in r && y in multiset(users) - multiset(r) ensures KeyLe(y.createdAt, x.createdAt) {
      assert InOrder(x, y, UserCreatedKey, true);
    }
  }

  /** `Product.query.order_by(created_at.desc()).limit(k)`: the k newest products, NULL times counting as newest. */
  lemma NewestProducts(products: seq<Product>, k: nat)
    ensures var r := TopBy(products, ProductCreatedKey, true, k);
            && |r| == (if |products| <= k then |products| else k)
            && Ordered(r, ProductCreatedKey, true)
            && multiset(r) <= multiset(products)
            && forall x, y :: x in r && y in multiset(products) - multiset(r) ==> KeyLe(y.createdAt, x.createdAt)
  {
    var r := TopBy(products, ProductCreatedKey, true, k);
    TopByIsTopK(products, ProductCreatedKey, true, k);
    forall x, y | x in r && y in multiset(products) - multiset(r) ensures KeyLe(y.createdAt, x.createdAt) {
      assert InOrder(x, y, ProductCreatedKey, true);
    }
  }

  /** `Order.query.order_by(created_at.desc()).limit(k)`: the k newest orders. */
  lemma NewestOrders(orders: seq<Order>, k: nat)
    ensures var r := TopBy(orders, OrderCreatedKey, true, k);
            && |r| == (if |orders| <= k then |orders| else k)
            && Ordered(r, OrderCreatedKey, true)
            && multiset(r) <= multiset(orders)
            && forall x, y :: x in r && y in multiset(orders) - multiset(r) ==> y.createdAt <= x.createdAt
  {
    var r := TopBy(orders, OrderCreatedKey, true, k);
    TopByIsTopK(orders, OrderCreatedKey, true, k);
    forall x, y | x in r && y in multiset(orders) - multiset(r) ensures y.createdAt <= x.createdAt {
      assert InOrder(x, y, OrderCreatedKey, true);
    }
  }

  /** The dashboard lists: at most ten, newest first, none newer left out. */
  lemma LatestListsAreNewest(users: seq<User>, roles: seq<Role>, products: seq<Product>, orders: seq<Order>,
                             caller: Option<User>, now: Time)
    requires caller.Some? && IsAdmin(roles, caller.value)
    ensures var d := AdminDashboard(users, roles, products, orders, caller, now);
            && |d.latestUsers| == (if |users| <= DashboardLimit then |users| else DashboardLimit)
            && |d.latestProducts| == (if |products| <= DashboardLimit then |products| else DashboardLimit)
            && |d.latestOrders| == (if |orders| <= DashboardLimit then |orders| else DashboardLimit)
            && Ordered(d.latestUsers, UserCreatedKey, true)
            && Ordered(d.latestProducts, ProductCreatedKey, true)
            && Ordered(d.latestOrders, OrderCreatedKey, true)
            && multiset(d.latestUsers) <= multiset(users)
            && multiset(d.latestProducts) <= multiset(products)
            && multiset(d.latestOrders) <= multiset(orders)
            && (forall x, y :: x in d.latestUsers && y in multiset(users) - multiset(d.latestUsers)
                  ==> KeyLe(y.createdAt, x.createdAt))
            && (forall x, y :: x in d.latestProducts && y in multiset(products) - multiset(d.latestProducts)
                  ==> KeyLe(y.createdAt, x.createdAt))
            && (forall x, y :: x in d.latestOrders && y in multiset(orders) - multiset(d.latestOrders)
                  ==> y.createdAt <= x.createdAt)
  {
    NewestUsers(users, DashboardLimit);
    NewestProducts(products, DashboardLimit);
    NewestOrders(orders, DashboardLimit);
  }

  /** The management page: every client and seller, newest first, and the 50 newest orders and products. */
  datatype Management = Management(clients: seq<User>, sellers: seq<User>, orders: seq<Order>, products: seq<Product>)

  function Clients(users: seq<User>, roles: seq<Role>): (r: seq<User>)
    ensures forall u :: u in r <==> u in users && HasRoleNamed(roles, u, "user")
  {
    Filter(users, (u: User) => HasRoleNamed(roles, u, "user"))
  }

  function Sellers(users: seq<User>, roles: seq<Role>): (r: seq<User>)
    ensures forall u :: u in r <==> u in users && HasRoleNamed(roles, u, "seller")
  {
    Filter(users, (u: User) => HasRoleNamed(roles, u, "seller"))
  }

  /** `AdminManagementView.index`; the view is reachable only past `IsAdminCaller`. */
  function ManagementPage(users: seq<User>, roles: seq<Role>, products: seq<Product>, orders: seq<Order>)
    : Management
  {
    Management(SortBy(Clients(users, roles), UserCreatedKey, true),
               SortBy(Sellers(users, roles), UserCreatedKey, true),
               TopBy(orders, OrderCreatedKey, true, ManagementLimit),
               TopBy(products, ProductCreatedKey, true, ManagementLimit))
  }

  /**
   * Clients and sellers are listed in full, newest first, with no user on
   * both lists; orders and products are capped at 50, newest first.
   */
  lemma ManagementListsAreComplete(users: seq<User>, roles: seq<Role>, products: seq<Product>, orders: seq<Order>)
    ensures var m := ManagementPage(users, roles, products, orders);
            && multiset(m.clients) == multiset(Clients(users, roles))
            && multiset(m.sellers) == multiset(Sellers(users, roles))
            && Ordered(m.clients, UserCreatedKey, true)
            && Ordered(m.sellers, UserCreatedKey, true)
            && (forall u :: u in m.clients ==> u !in m.sellers)
            && |m.orders| == (if |orders| <= ManagementLimit then |orders| else ManagementLimit)
            && |m.products| == (if |products| <= ManagementLimit then |products| else ManagementLimit)
            && Ordered(m.orders, OrderCreatedKey, true)
            && Ordered(m.products, ProductCreatedKey, true)
            && multiset(m.orders) <= multiset(orders)
            && multiset(m.products) <= multiset(products)
            && (forall x, y :: x in m.orders && y in multiset(orders) - multiset(m.orders)
                  ==> y.createdAt <= x.createdAt)
            && (forall x, y :: x in m.products && y in multiset(products) - multiset(m.products)
                  ==> KeyLe(y.createdAt, x.createdAt))
  {
    var m := ManagementPage(users, roles, products, orders);
    NewestOrders(orders, ManagementLimit);
    NewestProducts(products, ManagementLimit);
    forall u | u in m.clients ensures u !in m.sellers {
      assert u in multiset(m.clients);
      assert u in Clients(users, roles);
      assert u in m.sellers ==> u in multiset(m.sellers);
    }
  }
}
