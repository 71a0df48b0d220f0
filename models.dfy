/**
 * The tables of the store (roles, users, categories, products, cart rows,
 * orders, order items), the column defaults and NOT NULL / length / numeric
 * constraints that decide whether an INSERT succeeds, the UNIQUE
 * constraints, and `User.is_admin`.
 *
 * Prices and totals are `Numeric(10, 2)` amounts held as integer cents;
 * timestamps are integer seconds supplied by the caller; a nullable column
 * is an `Option`. Foreign-key columns are NOT NULL in every table, so they
 * are plain `Id`s.
 */
module Models {
  import opened Wrappers
  import opened Text
  import opened Rows

  type Id = int
  /** A `Numeric(10, 2)` amount in hundredths. */
  type Cents = int
  /** A timestamp in seconds. */
  type Time = int

  /** The largest magnitude a `Numeric(10, 2)` column holds: 99999999.99. */
  const MaxNumeric: int := 99_999_999_99

  predicate FitsNumeric(x: Cents)
  {
    -MaxNumeric <= x <= MaxNumeric
  }

  /** The range of a PostgreSQL `integer` column. */
  predicate FitsInteger(x: int)
  {
    -0x8000_0000 <= x <= 0x7fff_ffff
  }

  /** A `String(n)` column accepts at most `n` characters. */
  predicate FitsVarchar(s: string, n: nat)
  {
    |s| <= n
  }

  datatype Role = Role(id: Id, name: string)

  datatype User = User(
    id: Id,
    username: string,
    email: string,
    passwordHash: string,
    roleId: Id,
    isActive: Option<bool>,
    createdAt: Option<Time>,
    updatedAt: Option<Time>,
    firstName: Option<string>,
    middleName: Option<string>,
    lastName: Option<string>)

  datatype Category = Category(id: Id, name: string)

  datatype Product = Product(
    id: Id,
    name: string,
    price: Cents,
    categoryId: Id,
    supplierId: Id,
    image: Option<string>,
    isPublished: Option<bool>,
    createdBy: Id,
    createdAt: Option<Time>)

  datatype CartRow = CartRow(id: Id, userId: Id, productId: Id, quantity: Option<int>, createdAt: Option<Time>)

  datatype Order = Order(id: Id, userId: Id, sellerId: Id, totalAmount: Cents, status: string, createdAt: Time)

  datatype OrderItem = OrderItem(id: Id, orderId: Id, productId: Id, quantity: int, price: Cents, createdAt: Option<Time>)

  // Keys, as function values for the generic row operations.
  function RoleKey(r: Role): Id { r.id }
  function RoleName(r: Role): string { r.name }
  function UserKey(u: User): Id { u.id }
  function Username(u: User): string { u.username }
  function Email(u: User): string { u.email }
  function CategoryKey(c: Category): Id { c.id }
  function ProductKey(p: Product): Id { p.id }
  function CartKey(c: CartRow): Id { c.id }
  function OrderKey(o: Order): Id { o.id }
  function ItemKey(i: OrderItem): Id { i.id }

  // ------------------------------------------------------------------
  // INSERT: defaults for omitted columns, then the column constraints.
  // An argument `None` means the constructor was not given that column.
  // ------------------------------------------------------------------

  /** `Cart(...)`: `quantity` defaults to 1. */
  function NewCartRow(id: Id, userId: Id, productId: Id, quantity: Option<int>, now: Time): (r: CartRow)
    ensures r.id == id && r.userId == userId && r.productId == productId && r.createdAt == Some(now)
    ensures quantity.None? ==> r.quantity == Some(1)
    ensures quantity.Some? ==> r.quantity == quantity
  {
    CartRow(id, userId, productId, Some(quantity.GetOr(1)), Some(now))
  }

  /**
   * `Order(...)`: `status` defaults to 'pending'; the insert fails when
   * `total_amount` is NULL or does not fit `Numeric(10, 2)`, or the status
   * is longer than 50 characters.
   */
  function NewOrder(id: Id, userId: Id, sellerId: Id, total: Option<Cents>, status: Option<string>, now: Time)
    : (r: Option<Order>)
    ensures r.Some? <==> total.Some? && FitsNumeric(total.value) && FitsVarchar(status.GetOr("pending"), 50)
    ensures r.Some? ==> r.value == Order(id, userId, sellerId, total.value, status.GetOr("pending"), now)
    ensures status.None? && r.Some? ==> r.value.status == "pending"
  {
    if total.None? || !FitsNumeric(total.value) || !FitsVarchar(status.GetOr("pending"), 50) then None
    else Some(Order(id, userId, sellerId, total.value, status.GetOr("pending"), now))
  }

  /** `OrderItem(...)`: `quantity` and `price` are NOT NULL and have no default. */
  function NewOrderItem(id: Id, orderId: Id, productId: Id, quantity: Option<int>, price: Option<Cents>, now: Time)
    : (r: Option<OrderItem>)
    ensures r.Some? <==> quantity.Some? && price.Some?
    ensures r.Some? ==> r.value == OrderItem(id, orderId, productId, quantity.value, price.value, Some(now))
  {
    if quantity.None? || price.None? then None
    else Some(OrderItem(id, orderId, productId, quantity.value, price.value, Some(now)))
  }

  /**
   * `User(...)`: `is_active` defaults to True, both timestamps to now; the
   * insert fails when a string is longer than its column.
   */
  function NewUser(id: Id, username: string, email: string, passwordHash: string, roleId: Id,
                   isActive: Option<bool>, firstName: Option<string>, middleName: Option<string>,
                   lastName: Option<string>, now: Time): (r: Option<User>)
    ensures r.Some? <==> UserFits(username, email, firstName, middleName, lastName)
    ensures r.Some? ==> r.value.isActive == Some(isActive.GetOr(true))
    ensures r.Some? ==> r.value.id == id && r.value.username == username && r.value.email == email
                        && r.value.passwordHash == passwordHash && r.value.roleId == roleId
                        && r.value.firstName == firstName && r.value.middleName == middleName
                        && r.value.lastName == lastName && r.value.createdAt == Some(now)
  {
    if !UserFits(username, email, firstName, middleName, lastName) then None
    else Some(User(id, username, email, passwordHash, roleId, Some(isActive.GetOr(true)), Some(now), Some(now),
                   firstName, middleName, lastName))
  }

  predicate NameFits(n: Option<string>)
  {
    n.None? || FitsVarchar(n.value, 64)
  }

  predicate UserFits(username: string, email: string, firstName: Option<string>, middleName: Option<string>,
                     lastName: Option<string>)
  {
    FitsVarchar(username, 64) && FitsVarchar(email, 120)
    && NameFits(firstName) && NameFits(middleName) && NameFits(lastName)
  }

  /** `Product.is_published` defaults to False. */
  function PublishedDefault(isPublished: Option<bool>): (b: bool)
    ensures isPublished.None? ==> !b
  {
    isPublished.GetOr(false)
  }

  // ------------------------------------------------------------------
  // Lookups: `Model.query.get(id)` and `filter_by(...).first()`.
  // ------------------------------------------------------------------

  function FindUser(users: seq<User>, id: Id): (r: Option<nat>)
    ensures r.Some? ==> r.value < |users| && users[r.value].id == id
    ensures r.None? <==> forall i :: 0 <= i < |users| ==> users[i].id != id
  {
    FindFirst(users, (u: User) => u.id == id)
  }

  function FindUserByEmail(users: seq<User>, email: string): (r: Option<nat>)
    ensures r.Some? ==> r.value < |users| && users[r.value].email == email
    ensures r.None? <==> forall i :: 0 <= i < |users| ==> users[i].email != email
  {
    FindFirst(users, (u: User) => u.email == email)
  }

  function FindRole(roles: seq<Role>, id: Id): (r: Option<nat>)
    ensures r.Some? ==> r.value < |roles| && roles[r.value].id == id
    ensures r.None? <==> forall i :: 0 <= i < |roles| ==> roles[i].id != id
  {
    FindFirst(roles, (x: Role) => x.id == id)
  }

  /** `Role.query.filter_by(name=name).first()`: exact, case-sensitive match. */
  function FindRoleByName(roles: seq<Role>, name: string): (r: Option<nat>)
    ensures r.Some? ==> r.value < |roles| && roles[r.value].name == name
    ensures r.None? <==> forall i :: 0 <= i < |roles| ==> roles[i].name != name
  {
    FindFirst(roles, (x: Role) => x.name == name)
  }

  /** Role names are UNIQUE, so a lookup by name finds the only role with that name. */
  lemma RoleByNameIsUnique(roles: seq<Role>, name: string, j: nat)
    requires Unique(roles, RoleName)
    requires j < |roles| && roles[j].name == name
    ensures FindRoleByName(roles, name) == Some(j)
  {
  }

  function FindCategory(categories: seq<Category>, id: Id): (r: Option<nat>)
    ensures r.Some? ==> r.value < |categories| && categories[r.value].id == id
    ensures r.None? <==> forall i :: 0 <= i < |categories| ==> categories[i].id != id
  {
    FindFirst(categories, (c: Category) => c.id == id)
  }

  function FindProduct(products: seq<Product>, id: Id): (r: Option<nat>)
    ensures r.Some? ==> r.value < |products| && products[r.value].id == id
    ensures r.None? <==> forall i :: 0 <= i < |products| ==> products[i].id != id
  {
    FindFirst(products, (p: Product) => p.id == id)
  }

  function FindCartRow(carts: seq<CartRow>, id: Id): (r: Option<nat>)
    ensures r.Some? ==> r.value < |carts| && carts[r.value].id == id
    ensures r.None? <==> forall i :: 0 <= i < |carts| ==> carts[i].id != id
  {
    FindFirst(carts, (c: CartRow) => c.id == id)
  }

  function FindOrder(orders: seq<Order>, id: Id): (r: Option<nat>)
    ensures r.Some? ==> r.value < |orders| && orders[r.value].id == id
    ensures r.None? <==> forall i :: 0 <= i < |orders| ==> orders[i].id != id
  {
    FindFirst(orders, (o: Order) => o.id == id)
  }

  /** A primary-key lookup on a table with unique keys finds the row with that key. */
  lemma FindUserIsKeyed(users: seq<User>, i: nat)
    requires Unique(users, UserKey) && i < |users|
    ensures FindUser(users, users[i].id) == Some(i)
  {
  }

  // ------------------------------------------------------------------
  // Roles as seen by the application.
  // ------------------------------------------------------------------

  /** `user.role`: the role the user's `role_id` refers to, if any. */
  function RoleOf(roles: seq<Role>, u: User): (r: Option<Role>)
    ensures r.Some? ==> r.value in roles && r.value.id == u.roleId
    ensures r.None? ==> forall x :: x in roles ==> x.id != u.roleId
  {
    match FindRole(roles, u.roleId)
    case None => None
    case Some(i) => Some(roles[i])
  }

  /** `User.is_admin()`: the role name, lower-cased but NOT trimmed, is "admin". */
  predicate IsAdmin(roles: seq<Role>, u: User)
  {
    match RoleOf(roles, u)
    case None => false
    case Some(r) => Lower(r.name) == "admin"
  }

  /** With unique role ids, `is_admin` holds exactly when the user's role is named "admin" up to case. */
  lemma IsAdminIff(roles: seq<Role>, u: User)
    requires Unique(roles, RoleKey)
    ensures IsAdmin(roles, u) <==> exists r :: r in roles && r.id == u.roleId && Lower(r.name) == "admin"
  {
    if r :| r in roles && r.id == u.roleId && Lower(r.name) == "admin" {
      var j :| 0 <= j < |roles| && roles[j] == r;
      var i := FindRole(roles, u.roleId).value;
      assert RoleKey(roles[i]) == RoleKey(roles[j]);
    }
  }

  /** A role named " Admin" (with a leading space) does not make its users admins. */
  lemma PaddedAdminNameIsNotAdmin(u: User)
    ensures !IsAdmin([Role(u.roleId, " Admin")], u)
  {
    assert Lower(" Admin")[0] == ' ';
  }
}
