/**
 * The database session: one table per field, each a sequence of rows in the
 * order the store returns them. A handler reads the fields, builds its
 * pending rows and assigns the fields only when it commits, so a rollback
 * leaves every field as it was.
 */
module Store {
  import opened Rows
  import opened Models

  /** The PRIMARY KEY and UNIQUE constraints the schema declares. */
  ghost predicate KeysHold(roles: seq<Role>, users: seq<User>, categories: seq<Category>, products: seq<Product>,
                           carts: seq<CartRow>, orders: seq<Order>, orderItems: seq<OrderItem>)
  {
    && Unique(roles, RoleKey) && Unique(roles, RoleName)
    && Unique(users, UserKey) && Unique(users, Username) && Unique(users, Email)
    && Unique(categories, CategoryKey)
    && Unique(products, ProductKey)
    && Unique(carts, CartKey)
    && Unique(orders, OrderKey)
    && Unique(orderItems, ItemKey)
  }

  class Database {
    var roles: seq<Role>
    var users: seq<User>
    var categories: seq<Category>
    var products: seq<Product>
    var carts: seq<CartRow>
    var orders: seq<Order>
    var orderItems: seq<OrderItem>

    ghost predicate Valid()
      reads this
    {
      KeysHold(roles, users, categories, products, carts, orders, orderItems)
    }

    constructor (roles: seq<Role>, users: seq<User>, categories: seq<Category>, products: seq<Product>,
                 carts: seq<CartRow>, orders: seq<Order>, orderItems: seq<OrderItem>)
      requires KeysHold(roles, users, categories, products, carts, orders, orderItems)
      ensures Valid()
      ensures this.roles == roles && this.users == users && this.categories == categories
      ensures this.products == products && this.carts == carts
      ensures this.orders == orders && this.orderItems == orderItems
    {
      this.roles := roles;
      this.users := users;
      this.categories := categories;
      this.products := products;
      this.carts := carts;
      this.orders := orders;
      this.orderItems := orderItems;
    }
  }
}
