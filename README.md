# Shop store and request handlers in Dafny

This project models the core of a small Flask + SQLAlchemy shop backed by PostgreSQL. Customers fill a cart and check
out. Sellers edit and delete their own products. Everyone browses a paginated catalogue and a few rankings.
Administrators manage users, orders and products from an admin panel. A start-up block makes sure an active
administrator account exists.

Each table (roles, users, categories, products, cart rows, orders, order items) is a sequence of records in the order
the store returns them. Nullable columns are `Option`s. `Numeric(10, 2)` amounts are integer cents. Timestamps are
integer seconds supplied by the caller. The ORM session is the `Store.Database` class. Its `Valid()` states the
primary-key and UNIQUE constraints of the schema.

Each request handler is a method on that class. It changes only the tables it names in `modifies`, keeps `Valid()`,
and ties its reply and the new tables to a pure function of the old tables. A failed commit is a rollback: the handler
then leaves every table as it was. The catalogue, statistics, rankings and dashboards are pure functions over the
tables. The SQL they rely on is modelled in module `Rows`:

- `Filter` is a WHERE clause.
- `Count` and `SumOf` are aggregates.
- `SortBy` is ORDER BY with PostgreSQL's NULL placement: NULL sorts above every value, so it comes last ascending and
  first descending.
- `TopBy` is ORDER BY … LIMIT.

Modules:

- `Wrappers`: `Option`.
- `Rows`: sequence operations standing for SQL.
- `Text`: lower-casing, trimming, `split('@')[0]` and `str.split()`.
- `Models`: records, defaults, column constraints and `is_admin`.
- `Store`: the database class.
- `CartService`, `Checkout`, `SellerProducts`, `Catalog`, `Accounts`, `AdminPanel`, `Bootstrap`: one module per group
  of handlers.

## Model

| member | source | states |
|---|---|---|
| Rows.Filter | routes.py:332-340 | a WHERE clause keeps exactly the rows satisfying the predicate, without adding any |
| Rows.Count | admin.py:46-60 | a COUNT is zero exactly when no row satisfies the predicate, and never exceeds the row count |
| Rows.CountAppend | admin.py:46-60 | appending a row raises a COUNT by one exactly when the row satisfies the predicate, so with an empty table counting zero the count is the number of matching rows |
| Rows.CountDisjoint | admin.py:52-60 | two counts over disjoint predicates sum to at most the row count |
| Rows.SortBy | admin.py:62-64 | ORDER BY returns a permutation of the rows that is ordered by the key, NULLs counting as largest |
| Rows.TopByIsTopK | routes.py:626-645 | ORDER BY … LIMIT k returns min(k, n) rows, ordered, drawn from the table, and every row left out sorts no earlier than every row kept |
| Rows.NextId | routes.py:248 | a new primary key exceeds every existing key in the table |
| Models.NewCartRow | models.py:108-115 | a new cart row gets quantity 1 when none is given |
| Models.NewOrder | models.py:118-126 | an order insert fails exactly when the total is missing or exceeds Numeric(10, 2), or the status exceeds 50 characters; the status defaults to 'pending' |
| Models.NewOrderItem | models.py:137-145 | an order-item insert fails exactly when quantity or price is missing |
| Models.NewUser | models.py:21-36 | a user insert succeeds exactly when the string lengths fit their columns; `is_active` defaults to true |
| Models.PublishedDefault | models.py:96 | a product inserted without `is_published` is unpublished |
| Models.FindRoleByName | models.py:14 | a lookup by role name returns a row with exactly that name, or nothing when no row has it |
| Models.RoleByNameIsUnique | models.py:14 | with unique role names, a lookup by name finds the one role carrying that name |
| Models.FindUserIsKeyed | models.py:24 | with unique user ids, looking up a user's id finds that user |
| Models.IsAdminIff | models.py:61-62 | `is_admin` holds iff the user's role exists and its name lower-cased is "admin" |
| Models.PaddedAdminNameIsNotAdmin | models.py:61-62 | `is_admin` does not trim: a role named " Admin" does not qualify |
| Text.TrimIdempotent | main.py:49-51 | stripping a stripped string changes nothing |
| Text.BeforeFirstOfJoin | routes.py:243 | the part before the first separator of `head + sep + tail` is `head` when `head` has no separator |
| Text.SplitWordsAreWords | routes.py:284 | `str.split()` returns only non-empty pieces that contain no whitespace |
| Text.SplitJoin | routes.py:284 | splitting words joined by single spaces gives those words back |
| CartService.AddToCart | routes.py:126-141 | the reply is Added exactly when the product exists and either the user has no row for it or the bumped quantity still fits a 32-bit integer; an unknown product fails and changes nothing; an existing (user, product) row gains 1 with an absent quantity read as 0, and no other row changes; otherwise exactly one new row with quantity 1 and a fresh id is appended |
| CartService.AddToCartKeepsOneRowPerProduct | routes.py:128-135 | at most one cart row per (user, product) is preserved |
| CartService.AddToCartKeepsQuantitiesPositive | routes.py:128-135 | if every quantity was at least 1, it still is |
| CartService.AddToCartKeepsKeys | routes.py:128-135 | cart ids stay unique |
| CartService.AddTwiceGivesOneRowOfTwo | routes.py:126-135 | adding an existing product twice to any cart without a row for it appends exactly one row, with quantity 2, and keeps every earlier row |
| CartService.AddToCartHandler | routes.py:124-141 | the handler's reply and new cart table are those of `AddToCart`, and the table constraints still hold |
| CartService.UpdateCart | routes.py:85-108 | a missing row gives the server error, another user's row gives 403, an unknown action gives 400, and each leaves the cart unchanged; success happens exactly for the caller's own row with "decrease", or with "increase" when the bumped quantity fits a 32-bit integer; a success touches only the target row |
| CartService.UpdateCartStep | routes.py:93-100 | "increase" adds 1, "decrease" subtracts 1, and the row is deleted when the result is at most 0 |
| CartService.UpdateCartKeepsQuantitiesPositive | routes.py:93-105 | if every quantity was at least 1, every remaining row still has at least 1 |
| CartService.UpdateCartKeepsKeys | routes.py:93-105 | cart ids stay unique |
| CartService.RemoveFromCart | routes.py:112-122 | a missing row gives the server error and another user's row gives 403, each changing nothing; otherwise exactly that row is deleted |
| CartService.RemoveFromCartDeletesExactlyThatRow | routes.py:114-119 | after a successful remove, the cart holds exactly the old rows whose id differs from the target |
| CartService.CartUpdateHandler | routes.py:83-108 | the handler's reply and new cart table are those of `UpdateCart` |
| CartService.CartRemoveHandler | routes.py:110-122 | the handler's reply and new cart table are those of `RemoveFromCart` |
| Checkout.CartOf | routes.py:30 | the caller's cart is exactly the cart rows with the caller's user id |
| Checkout.CheckoutPage | routes.py:28-38 | an empty cart redirects with a notice; a cart row whose product is missing is a load error; otherwise the page lists the caller's rows |
| Checkout.LineItems | routes.py:63-70 | one line item per cart row, with consecutive fresh ids, that row's product id and quantity, and the product's current price |
| Checkout.TotalEqualsItemSum | routes.py:49-70 | the order total Σ price × quantity equals the sum of price × quantity over the created line items |
| Checkout.PlaceOrder | routes.py:42-81 | the order is placed exactly when the caller's cart is non-empty, every row's product exists and its quantity is not NULL, and the total fits Numeric(10, 2); an empty cart and any failure leave orders, order items and cart unchanged; a success leaves exactly the other users' cart rows |
| Checkout.PlacedOrderFields | routes.py:49-61 | a successful checkout appends exactly one order with a fresh id, the caller as customer, status 'pending', the first cart row's product creator as seller and the cart total as amount |
| Checkout.PlacedOrderItems | routes.py:63-70 | a successful checkout appends one item per cart row, copying product id, quantity and price, and the order total equals the items' sum |
| Checkout.PlacedOrderClearsOnlyCallersCart | routes.py:72-75 | after checkout the caller's cart is empty and every other user's cart is unchanged |
| Checkout.NullQuantityRollsBack | routes.py:78-81 | a cart row without quantity violates NOT NULL on the item; the checkout fails and nothing changes |
| Checkout.PageTotalIsOrderTotal | routes.py:31 | the total shown on the checkout page is the total stored on the placed order |
| Checkout.RemovingCallersRowsById | routes.py:72-73 | deleting the caller's rows by id leaves exactly the other users' rows |
| Checkout.BuildLineItems | routes.py:63-70 | the item loop reports a NOT NULL violation exactly when some row lacks a quantity, and otherwise builds `LineItems` |
| Checkout.DeleteRows | routes.py:72-73 | the delete loop leaves exactly the rows whose id is not among the deleted rows |
| Checkout.PlacedKeepsKeys | routes.py:60-75 | a placed order keeps every primary key unique |
| Checkout.ProcessCheckout | routes.py:42-81 | the loops of the transaction compute exactly `PlaceOrder` |
| Checkout.CheckoutHandler | routes.py:40-81 | the handler's outcome and new orders, items and cart are those of `PlaceOrder`, and the table constraints still hold |
| SellerProducts.Gate | routes.py:476-486 | a request passes exactly when the caller's role id is 2, the product exists and the caller created it; a non-seller is refused as such, a seller naming a missing product gets not-found |
| SellerProducts.EditProduct | routes.py:474-519 | a refused gate is the reply; the save succeeds exactly when the gate passes, the category exists, the price fits Numeric(10, 2) and the name fits 100 characters; nothing changes otherwise; a save overwrites the name, price, category and published flag of that product only |
| SellerProducts.DeleteProduct | routes.py:530-560 | a refused gate is the reply; the delete succeeds exactly when the gate passes and no cart row or order item refers to the product; nothing changes otherwise; a success removes that row |
| SellerProducts.DeleteRemovesExactlyThatProduct | routes.py:552-553 | a successful delete leaves exactly the products whose id differs from the target |
| SellerProducts.DeleteKeepsReferencesResolved | routes.py:552-558 | every cart row and order item still refers to an existing product after a delete |
| SellerProducts.EditProductHandler | routes.py:472-526 | the handler's reply and product table are those of `EditProduct` |
| SellerProducts.DeleteProductHandler | routes.py:528-560 | the handler's reply and product table are those of `DeleteProduct` |
| Catalog.Matching | routes.py:332-340 | the listing holds exactly the published products in the category, when one is given and non-zero, and within the inclusive price bounds |
| Catalog.PageStart | routes.py:328-346 | a page number below 1 starts at 0; page p starts at (p − 1) · 12 |
| Catalog.ListProducts | routes.py:346-347 | a page has at most 12 products, all of them listed ones |
| Catalog.PageIsSliceOfMatches | routes.py:346-347 | a page is the slice of the matches from its start: full when possible, the remainder at the end, empty past the end |
| Catalog.EveryMatchIsOnItsPage | routes.py:346-347 | the j-th match appears on page j / 12 + 1 at position j % 12 |
| Catalog.PageBelowOneIsFirstPage | routes.py:346 | a page number below 1 shows the first page |
| Catalog.CategoryZeroIsNoFilter | routes.py:335-336 | category 0 is ignored like an absent category |
| Catalog.OrderCount | routes.py:572-578 | a product's order count is zero exactly when no order item refers to it |
| Catalog.ProductStats | routes.py:568-581 | one row per product whose category and creator exist, carrying their names and its order-item count |
| Catalog.ProductStatsFollowProducts | routes.py:568-581 | the rows are exactly the products whose category and creator exist, one row each, in product order |
| Catalog.StatsSumToAllItems | routes.py:568-581 | the order counts of the statistics add up to the order items that refer to a listed product |
| Catalog.EveryItemCountedOnce | routes.py:577-578 | with unique product ids and resolvable items, every order item is counted exactly once |
| Catalog.Popularity | routes.py:632-639 | the inner join keeps exactly the products with at least one order item, with their counts |
| Catalog.RankingSizes | routes.py:626-645 | each price and age ranking holds min(10, n) products drawn from the table |
| Catalog.MostExpensiveRanks | routes.py:626 | the most-expensive list is in non-increasing price and no product left out costs more than one listed |
| Catalog.CheapestRanks | routes.py:629 | the cheapest list is in non-decreasing price and no product left out costs less than one listed |
| Catalog.OldestRanks | routes.py:645 | the oldest list is in ascending creation time with NULLs last, and no product left out is older than one listed |
| Catalog.MostPopularEntries | routes.py:632-642 | at most 10 entries, each a product with its true order count of at least 1 |
| Catalog.MostPopularRanks | routes.py:640-642 | the popular list is in non-increasing count and no joined product left out has a higher count |
| Catalog.UserDashboard | routes.py:200-214 | a seller (role id 2) sees the number and sum of the orders they sold, 0 when none; anyone else sees their recent orders |
| Catalog.RecentOrdersAreLatestOwn | routes.py:208-211 | a customer's recent orders are min(5, own) of their own orders, newest first, and no order left out is newer |
| Catalog.SellerTotalsAppend | routes.py:201-202 | a new order raises the count and sum of its seller only |
| Catalog.CheckoutCreditsOneSeller | routes.py:52-61 | a checkout credits its total to the creator of the first cart row's product and to no other seller |
| Accounts.UsernameFromEmail | routes.py:243 | the username is the prefix of the email before its first '@', or the whole email when it has none |
| Accounts.UsernameOfAddress | routes.py:243 | an address local@domain yields the username local |
| Accounts.Register | routes.py:229-269 | a duplicate email is refused and changes nothing; the commit fails exactly when the email is new and the derived username is taken, the role does not exist, or a value is too long for its column, and then nothing changes; otherwise one active user is appended with the derived username, hashed password, chosen role and a fresh id |
| Accounts.RegisterKeepsUsersUnique | routes.py:237-261 | ids, usernames and emails stay unique |
| Accounts.SecondRegistrationIsRefused | routes.py:237-240 | registering the same email a second time is refused and leaves the users unchanged |
| Accounts.RegisterHandler | routes.py:225-269 | the handler's reply and user table are those of `Register` |
| Accounts.SplitNameOfWords | routes.py:284-287 | a name made of words gives its first three words as first, middle and last name, with "" for each missing one |
| Accounts.SplitNamePartsAreWords | routes.py:284-287 | each name part is a word or "", and a later part is empty whenever an earlier one is |
| Accounts.LoginRedirect | routes.py:161-173 | `next` is followed exactly when it starts with '/'; otherwise admins go to the admin index and everyone else to products |
| Accounts.ProtocolRelativeNextIsFollowed | routes.py:162 | a `next` of the form "//host" passes the check |
| Accounts.Login | routes.py:148-175 | an already signed-in user is redirected; a login is accepted exactly when the visitor is not signed in, the stripped email is on file and the stripped password checks against that user's hash; an accepted login redirects by `LoginRedirect` and signs in only an active user |
| Accounts.LoginIgnoresPadding | routes.py:153-154 | surrounding whitespace in email and password does not change the result |
| AdminPanel.AdminGateIsIsAdmin | admin.py:9-15 | the admin gate holds iff there is a signed-in caller for whom `is_admin` holds |
| AdminPanel.AdminGateIsCaseBlindButNotTrimmed | admin.py:13-15 | "ADMIN" passes the gate and " admin" does not |
| AdminPanel.ChangeUserRole | admin.py:102-111 | a non-admin is denied and a missing user is not found, both changing nothing; every other request succeeds; with a role of exactly that name only the user's role id changes, otherwise nothing changes |
| AdminPanel.ToggleUserActive | admin.py:112-118 | a non-admin is denied and a missing user is not found; every other request succeeds and negates only that user's flag, None counting as false |
| AdminPanel.FlipTwice | admin.py:116 | negating twice restores a boolean and turns None into false |
| AdminPanel.ToggleUserTwice | admin.py:112-118 | toggling a user twice restores the flag and leaves only the update time changed |
| AdminPanel.UpdateOrderStatus | admin.py:119-126 | a non-admin is denied and a missing order is not found; a status missing or over 50 characters fails the commit; otherwise only that order's status becomes the given string |
| AdminPanel.ToggleProductPublish | admin.py:127-133 | a non-admin is denied and a missing product is not found; every other request succeeds and negates only that product's flag |
| AdminPanel.ToggleProductTwice | admin.py:127-133 | toggling a product twice restores the product table |
| AdminPanel.ChangeUserRoleHandler | admin.py:102-111 | the handler's reply and user table are those of `ChangeUserRole` |
| AdminPanel.ToggleUserActiveHandler | admin.py:112-118 | the handler's reply and user table are those of `ToggleUserActive` |
| AdminPanel.UpdateOrderStatusHandler | admin.py:119-126 | the handler's reply and order table are those of `UpdateOrderStatus` |
| AdminPanel.ToggleProductPublishHandler | admin.py:127-133 | the handler's reply and product table are those of `ToggleProductPublish` |
| AdminPanel.AdminDashboard | admin.py:40-42 | the dashboard redirects to login exactly when the caller is not an admin |
| AdminPanel.NewCountsAreBounded | admin.py:44-60 | the three totals are the table sizes; the 30-day counts never exceed the totals, and new clients plus new sellers never exceed the user count |
| AdminPanel.EmptyTablesCountZero | admin.py:44-60 | on empty tables all seven numbers are zero |
| AdminPanel.NewOrderCounted | admin.py:44-49 | one more order adds one to the order total and one to the new orders exactly when it was created at most 30 days ago |
| AdminPanel.NewProductCounted | admin.py:44-50 | one more product adds one to the product total and one to the new products exactly when it has a creation time at most 30 days old |
| AdminPanel.NewUserCounted | admin.py:44-60 | one more user adds one to the user total, one to the new clients exactly when it is at most 30 days old with role "user", and likewise for sellers |
| AdminPanel.NewestUsers | admin.py:62 | the k newest users: min(k, n) rows, newest first, drawn from the table, no user left out newer than one listed |
| AdminPanel.NewestProducts | admin.py:63 | the k newest products: min(k, n) rows, newest first, drawn from the table, no product left out newer than one listed |
| AdminPanel.NewestOrders | admin.py:64 | the k newest orders: min(k, n) rows, newest first, drawn from the table, no order left out newer than one listed |
| AdminPanel.LatestListsAreNewest | admin.py:62-64 | the latest users, products and orders are min(10, n) rows each, newest first, drawn from their tables, and no row left out is newer than a listed one |
| AdminPanel.Clients | admin.py:95-96 | the client list holds exactly the users whose role name, trimmed and lower-cased, is "user" |
| AdminPanel.Sellers | admin.py:97-98 | the seller list holds exactly the users whose role name, trimmed and lower-cased, is "seller" |
| AdminPanel.ManagementListsAreComplete | admin.py:94-101 | clients and sellers are complete, disjoint and newest first; orders and products are min(50, n) rows drawn from their tables, newest first, with no row left out newer than a listed one |
| Bootstrap.SettingsAreStripped | main.py:49-51 | the username, email and password in use have no surrounding whitespace |
| Bootstrap.DefaultEmailIsUsernameAtExample | main.py:50 | without an email setting the email is the username followed by "@example.com" |
| Bootstrap.DefaultSettings | main.py:49-51 | with nothing set, the settings are admin / admin@example.com / admin123 |
| Bootstrap.BootstrapAdmin | main.py:45-76 | without a role named exactly 'Admin' nothing changes; the commit fails exactly when another user holds the username or a value is too long for its column; an existing user with the email is promoted in place and no other row changes; otherwise exactly one active Admin user with the settings and a fresh id is appended |
| Bootstrap.BootstrapKeepsUsersUnique | main.py:53-76 | ids, usernames and emails stay unique, a clashing username failing the commit |
| Bootstrap.FoundAtAdminRow | main.py:53-74 | after a bootstrap the email finds the admin row, which is active and carries the username, the Admin role and the fixed names |
| Bootstrap.BootstrapYieldsActiveAdmin | main.py:45-76 | after a bootstrap the user with the admin email is active and `is_admin` holds for them |
| Bootstrap.BootstrapTwice | main.py:45-76 | running the bootstrap again changes only the password hash and update time of the admin row |
| Bootstrap.BootstrapHandler | main.py:45-76 | the block's reply and user table are those of `BootstrapAdmin` |

## Left out

- HTML rendering, flash messages, `url_for`, and the GET branches that only render a form: each handler returns an
  abstract reply tag instead.
- Flask-Login sessions: the caller is a parameter, `Option<User>` where the caller may be anonymous.
- `login_user`'s refusal of an inactive user is the `signedIn` flag of `Accounts.Login`.
- Password hashing and checking are function parameters, not an algorithm.
- Image upload, deletion and existence checks: filesystem I/O.
- `setval` sequence resets and PostgreSQL sequences. A new id is one more than the largest id in the table, so ids
  used by a rolled-back insert are not skipped.
- Float parsing of prices and filter bounds: every amount is integer cents, and the `float()` rounding is not modelled.
- `int()` parse errors and a missing form field (`KeyError`) are not modelled: the form arrives parsed. A missing
  JSON action or status is `None`.
- The ILIKE product search, which depends on database case folding and on wildcard characters in the search term.
- The rest of `input_form`: its `User(...)` call passes `phone` and `user_password`, which are not columns. Only the
  name split is modelled.
- `add_product` (it never sets the NOT NULL `supplier_id`), `my_products`, `edit_profile`, `logout` and the static
  pages.
- The Flask-Admin ModelView configuration, `init_admin`, app and login-manager wiring, and forms.py.
- Concurrent requests and lost updates: calls are strictly sequential.
- Lower-casing covers ASCII letters only. Python's `str.lower()` and SQL `lower()` also fold other alphabets.
- The supplier table and `Product.supplier_id` are not modelled. Product rows in the model already exist.
- Models.NewUser: does not check the length of `password_hash` against its 256-character column, because the hash is
  opaque here.
- A role join (`User.query.join(Role)`, `user.role`) finds the role by the user's `role_id`, taken from the first
  matching row. With unique role ids that is the only row.
- Reading environment variables: `Bootstrap.AdminSettings` computes the settings from the three optional values, and
  `Bootstrap.BootstrapHandler` takes the resulting settings.
- The role name comparison for the admin gate: the general description of the system calls it case- and
  whitespace-insensitive. The code (admin.py:15, models.py:62) lower-cases without trimming, and the model follows
  the code. Only the dashboard and management queries (admin.py:53, admin.py:96) trim.
