# SmartWash request handling, modelled in Dafny

SmartWash is a small laundry-ordering web application. Users register and log
in. A user places orders for washing, drying or ironing at fixed unit prices
and sees their own orders, newest first. The dashboard also shows whether
payment is allowed, which is when at least one order is "Completed". The
seeded administrator sees every order with its owner's name and overwrites
order statuses.

This project models the application's logic layer (`app.py`) as an in-memory
state machine:

- `tables.dfy` (module `Tables`): the rows of `users` and `orders`, and each
  SQL statement the handlers run. These are the credential lookup, the
  UNIQUE-email check, the owner-filtered listing, the inner join with user
  names, `ORDER BY created_at DESC` and the status `UPDATE`. All are functions
  over sequences of rows kept in rowid order.
- `billing.dfy` (module `Billing`): the price table, the order total and the
  `payment_allowed` flag.
- `smartwash.dfy` (module `SmartWash`): class `App` holds the two tables, the
  browser session and the next ids that AUTOINCREMENT hands out. Its `Valid()`
  invariant says four things. Ids are fresh and increasing. Emails are unique.
  Every order belongs to a stored user. A non-empty session names a stored
  user. Each route handler is a method that checks the session, redirects or
  proceeds, changes the tables, and returns a `Response`. A `Response` is a
  redirect or the data of the page it renders.

The store starts empty, like a new database file, and `InitDb` seeds it.
`created_at` is an integer timestamp passed in by the caller. The source
formats it as fixed-width text, so comparing the text compares the times.

Three behaviours of the code are worth stating plainly:

- Seeding guarantees at least one administrator row, not exactly one: an
  administrator inserted some other way is kept. Starting from a store with
  no administrator, `InitDb` leaves exactly one (`AdminCount`), and later
  seedings add none.
- Quantity may be any integer; a negative quantity gives a negative total.
  An order fails, and nothing is stored, when the quantity text is not an
  integer (`int()` raises) or when the quantity or its total lies outside
  the signed 64-bit range of an SQLite INTEGER (the driver cannot bind it).
- If no administrator exists but a user already holds `admin@smartwash.com`,
  the seeding INSERT breaks the UNIQUE constraint. The code does not catch
  that error, so nothing is inserted and start-up fails. `InitDb` returns
  `ok == false` in that case.

## Model

| member | source | states |
|---|---|---|
| `SmartWash.App.constructor` | app.py:26-49 | A new store has both tables empty, no session, and both id counters at 1; the invariant holds. |
| `SmartWash.App.InsertUser` | app.py:27-35 | The insert succeeds iff no stored user has the email (UNIQUE). On success exactly one row is appended, carrying the next id. On failure nothing changes. The administrator count grows only by an inserted admin. |
| `SmartWash.App.InitDb` | app.py:51-57 | Seeding changes nothing when an administrator exists. Otherwise it appends the fixed Admin row with role "admin", unless that email is taken. Afterwards ok holds iff an administrator exists, and a store that had no administrator has exactly one. |
| `SmartWash.SeedTwice` | app.py:52-57 | On a new store, the first seeding adds exactly one user. A second seeding adds nothing. Exactly one administrator results. |
| `SmartWash.App.Login` | app.py:67-92 | GET shows the form and leaves the session alone. POST redirects iff some user's email and password both equal the inputs exactly. On success the session holds that user's id, role and name, and the redirect goes to the admin page iff the role is "admin", else to the dashboard. On failure the session is unchanged and the form reports the error. |
| `SmartWash.App.Register` | app.py:95-115 | A POST with a taken email leaves the users table and id counter unchanged and reports failure. Otherwise it appends one user with role "user" and the next id, then redirects to login. It never changes the administrator count. |
| `SmartWash.RegisterThenLogin` | app.py:69-111 | For any email not yet used, registering and then logging in with the same credentials succeeds. The session then names the new user with role "user", and the redirect goes to the dashboard. |
| `SmartWash.App.Logout` | app.py:118-121 | The session is empty afterwards, and the answer redirects to login. |
| `SmartWash.App.Dashboard` | app.py:126-172 | Without a session whose role is exactly "user", it redirects to login and inserts nothing. A POST whose quantity does not parse, or whose quantity or total does not fit a 64-bit INTEGER, fails and stores nothing. Otherwise a POST appends exactly one order: the session's user id, the submitted service and quantity, the priced total, status "Pending" and the given time. Every earlier order is unchanged. The page lists exactly that user's orders, newest first. It shows the session's name, and payment is allowed iff a listed order has status "Completed". |
| `SmartWash.App.AdminDashboard` | app.py:177-202 | Without a session whose role is exactly "admin", it redirects to login and changes no order. Otherwise a POST applies the status update, and GET changes nothing. The page lists every order once, newest first, each with its owner's name. |
| `Tables.FindByCredentials` | app.py:75-78 | A found user is stored and matches both email and password. Nothing is found iff no stored user matches both. |
| `Tables.FindByCredentialsFindsTheUser` | app.py:75-78 | With unique emails, a stored user's own credentials find exactly that user. |
| `Tables.InsertUserWellFormed` | app.py:29-31 | Appending a user with the next id and an unused email keeps ids increasing and emails unique. |
| `Tables.AdminCount` | app.py:52-53 | The number of administrator rows is positive iff the admin query finds a row. |
| `Tables.AdminCountAppend` | app.py:54-57 | Appending one row raises the administrator count by one exactly when that row's role is "admin". |
| `Tables.OwnerName` | app.py:195-197 | The join gives an order a name only if some user has the order's user id and that name. It gives none iff no user has that id. |
| `Tables.OwnerNameIsTheOwner` | app.py:197 | With increasing user ids, the name joined to a user's id is that user's name. |
| `Tables.OrdersWellFormedMoreUsers` | app.py:47 | Adding a user keeps every order's owner stored. |
| `Tables.InsertOrderWellFormed` | app.py:145-154 | Appending an order with the next id and a stored owner keeps order ids increasing and every owner stored. |
| `Tables.SetStatusWellFormed` | app.py:188-191 | The status update keeps order ids and owners as they were. |
| `Tables.OwnedBy` | app.py:157-158 | The filter keeps each order of the given user as often as it is stored, and no other order. |
| `Tables.NewestFirst` | app.py:159 | The result is in non-increasing `created_at` order and is a permutation of its input. |
| `Tables.UserListing` | app.py:157-160 | The user's listing is newest first, and it holds exactly that user's orders, each as often as stored. |
| `Tables.Joined` | app.py:194-197 | Every joined row carries the name of the user whose id is the order's user id. |
| `Tables.JoinedMembers` | app.py:194-197 | The join lists exactly the orders whose user id matches a stored user. |
| `Tables.JoinedKeepsAll` | app.py:194-197 | When every order's owner is stored, the join drops no order and keeps their order. |
| `Tables.JoinedKeepsNewestFirst` | app.py:194-199 | Joining newest-first orders keeps them newest first. |
| `Tables.AdminListing` | app.py:194-199 | The admin listing is newest first and gives each order its owner's name. When every owner is stored, it holds every order exactly once. |
| `Tables.SetStatus` | app.py:188-191 | Each order whose id matches gets the new status. Every other field of that order is unchanged, and every other order is unchanged. |
| `Tables.SetStatusUnmatched` | app.py:188-191 | An id that matches no order leaves the orders unchanged. |
| `Tables.SetStatusTouchesOneRow` | app.py:188-191 | With increasing ids, at most one order differs after the update, and it is the one with that id. |
| `Billing.TotalPrice` | app.py:137-143 | The total is 0 iff the quantity is 0 or the service is not priced. Otherwise it lies between 0 and 50 times the quantity, with the sign of the quantity. |
| `Billing.UnitPrices` | app.py:137-143 | Wash costs 50, Dry 32 and Iron 20 per unit. Any other name costs 0 and raises no error. |
| `Billing.TotalPriceExamples` | app.py:143 | 3 Wash cost 150, 2 Dry 64, 5 Iron 100, and 4 of an unknown service 0. |
| `Billing.TotalPriceFits` | app.py:143-154 | A quantity within 1/50 of the INTEGER range fits, and so does its total for every service. |
| `Billing.TotalPriceCanOverflow` | app.py:143-154 | 2^58 washes fit the INTEGER range as a quantity, but their total does not. |
| `Billing.PaymentAllowed` | app.py:165 | Payment is allowed iff some listed order's status is exactly "Completed". |
| `Billing.PaymentAllowedIgnoresOrder` | app.py:157-165 | Two listings with the same orders give the same flag, so rows with equal timestamps can come in any order. |

## Left out

- Flask routing, decorators, templates, `url_for` and flash texts: a handler's
  answer is a `Response` value, and a form's flashed error is a boolean.
- The SQLite connection lifecycle (connect, commit, close) and SQL text: the
  tables are sequences, and each statement is a function over them.
- The clock read `datetime.now()`: `Dashboard` takes the timestamp as a
  parameter. Rows with equal timestamps come out in one fixed order, and the
  handler contracts only promise "newest first, same orders".
- The text of the `quantity` form field: `Dashboard` receives the integer
  `int()` makes of it, or `None` when `int()` raises ValueError; which texts
  `int()` accepts is Python's concern. The `order_id` text is
  bound unparsed and compared with the integer id by SQLite; the model
  receives the id it denotes, and a text that denotes none stands as an id
  that no order has (`Tables.SetStatusUnmatched`).
- `total_price` is a REAL column; the model keeps the integer product.
- Password hashing and the secret key: passwords are stored and compared verbatim, as in the code.
- Several browsers at once: the model has one session. Concurrent requests
  are the store's concern.
- App.AdminDashboard: the promise that the listing holds every order once
  rests on `Valid()`, which assumes every session was opened by `Login`
  against the current store. The code does not enforce this. The session is
  a client cookie signed with a fixed key (app.py:7), and SQLite does not
  check the FOREIGN KEY at app.py:47 because foreign keys are never switched
  on. So a cookie kept across a new database file could insert an order for
  a missing user, and the inner join at app.py:197 would hide that order.
  `Tables.JoinedMembers` states what the join lists without that assumption.
- Tables.OwnerName: the join is modelled as "first user with that id". This
  equals the SQL inner join when user ids are unique, which the store
  invariant guarantees.
