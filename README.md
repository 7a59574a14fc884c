# UPlay cart and checkout, modelled in Dafny

UPlayAPI is a booking backend. A user collects bookable services in a cart. Checkout turns the
cart into an order, and a payment session charges the cart through a payment gateway. This project
models the cart controller (`UPlayAPI/Controllers/CartController.cs`) as operations on an in-memory
copy of its two tables:

- the Carts table: a `seq<Cart>` in table order;
- the Orders table: a `seq<Order>`, each order holding its `OrderDetail` lines.

Both tables are fields of the class `CartController.Store`. The state-changing actions are methods
on it: `AddCart`, `UpdateCart`, `DeleteCart`, `DeleteAllCarts` and `Checkout`. The read-only actions
are functions on it: `GetAll`, `GetCart`, and the line-item part of `CreateCheckoutSession`.
Each action except `GetAll` returns a `Reply`: `Ok` with the response body, or `NotFound`,
`Forbid` or `BadRequest`, or `Failed` for an exception that escapes the action. `GetAll` always
answers `Ok`, so it returns the listing itself.

Inputs the environment supplies are parameters:

- the caller's user id (the claim that `GetUserId` reads);
- the current time (`DateTime.Now`);
- for `Checkout`, whether sending the confirmation mail returned normally.

Primary keys come from auto-increment counters in the store, as the database hands them out.

Prices are C# `decimal`, an exact decimal type. They are modelled as Dafny `real`, so sums and the
product by 100 are exact. `(long)(price * 100)` truncates toward zero. It throws when the value does
not fit in a `long`, and the model treats that as `Failed`.

Module layout:

- `Results.dfy`: `Option` and `Reply`.
- `Text.dfy`: the .NET string operations used. These are `Char.IsWhiteSpace`, `Trim`, and ordinal `Contains`.
- `Money.dfy`: truncation toward zero and the conversion to cents.
- `Entities.dfy`: the rows, plus the `Find`/`Where`/`RemoveRange` queries on the Carts table.
- `Listing.dfy`: the filter and the newest-first ordering of `GetAll`.
- `Orders.dfy`: order totals and the copy of cart rows into order details.
- `Payment.dfy`: the payment line items.
- `CartController.dfy`: the store and its actions.

The store invariant `Valid()` says three things. Keys are unique in each table. Keys are below the
next key to hand out. Every order's `TotalAmount` is the sum of its details' prices. Every
state-changing action keeps this invariant.

Points of the controller's behaviour that the model keeps as written:

- The confirmation mail is sent before the order is stored. If `SmtpClient.Send` throws, no order
  is created and the cart is kept.
- Payment amounts are truncated, not rounded. Because `decimal` is exact, 19.99 still becomes 1999
  cents. Only fractions of a cent are lost.
- `AddCart` and `UpdateCart` do not validate their input. Only the text fields are trimmed.
- The order insert and the cart removal go through one `SaveChanges`. The model treats them as one
  step.

## Model

| member | source | states |
|---|---|---|
| `Text.Trim` | UPlayAPI/Controllers/CartController.cs:117-118 | the result is the input with a white-space prefix and suffix cut off, and it neither starts nor ends with white space |
| `Text.TrimOfIsUnique` | UPlayAPI/Controllers/CartController.cs:148-149 | that characterisation of trimming admits exactly one result for each input |
| `Text.TrimIsIdempotent` | UPlayAPI/Controllers/CartController.cs:117-118 | trimming an already trimmed field changes nothing |
| `Text.Contains` | UPlayAPI/Controllers/CartController.cs:58-59 | true exactly when the search string occurs in the text at some offset |
| `Listing.Matches` | UPlayAPI/Controllers/CartController.cs:56-59 | a row is listed exactly when there is no search, or the search occurs at some offset of its service or of its participants |
| `Money.TruncateTowardZero` | UPlayAPI/Controllers/CartController.cs:298 | the result is the integer part of the value, rounded toward zero for both signs |
| `Money.TruncationIsUnique` | UPlayAPI/Controllers/CartController.cs:298 | only one integer meets the bounds of truncation toward zero |
| `Money.MinorUnits` | UPlayAPI/Controllers/CartController.cs:298 | `(long)(price * 100)` is defined exactly when the truncated value fits in a long, and is then within one cent of the price, toward zero |
| `Money.WholeCentsConvertExactly` | UPlayAPI/Controllers/CartController.cs:298 | 19.99 converts to 1999 cents and 25.00 to 2500 |
| `Money.SubCentFractionsAreDropped` | UPlayAPI/Controllers/CartController.cs:298 | 0.015 converts to 1 cent and -0.015 to -1 |
| `Entities.FindCart` | UPlayAPI/Controllers/CartController.cs:85 | finds the first row with the key, or reports that no row has it |
| `Entities.FindCartIsTheRow` | UPlayAPI/Controllers/CartController.cs:136 | with unique keys, the row found is the one row with that key |
| `Entities.OwnerOfKey` | UPlayAPI/Controllers/CartController.cs:143 | with unique keys, the ownership test on the found row decides for every row with that key |
| `Entities.ReplaceKeepsKeys` | UPlayAPI/Controllers/CartController.cs:148-155 | overwriting a row in place keeps keys unique and the row findable at the same place |
| `Entities.AppendKeepsKeys` | UPlayAPI/Controllers/CartController.cs:127-128 | adding a row with the next key keeps keys unique and makes the row findable by its key |
| `Entities.RemoveAtKeepsUniqueIds` | UPlayAPI/Controllers/CartController.cs:175-176 | removing one row keeps keys unique and drops exactly the rows with its key |
| `Entities.OwnedBy` | UPlayAPI/Controllers/CartController.cs:202 | the user's rows are exactly the table rows that user owns |
| `Entities.ExceptOwnedBy` | UPlayAPI/Controllers/CartController.cs:190 | after removing a user's rows, exactly the rows of other users remain; with none owned, the table is unchanged |
| `Entities.OwnedByPartitions` | UPlayAPI/Controllers/CartController.cs:185-190 | the removed rows and the kept rows together are the old table as a multiset |
| `Entities.ExceptOwnedByKeepsOthers` | UPlayAPI/Controllers/CartController.cs:184-194 | after removal the user owns nothing, and every other user owns the same rows in the same order |
| `Entities.ExceptOwnedByKeepsKeys` | UPlayAPI/Controllers/CartController.cs:265 | removing a user's rows keeps keys unique and below the next key |
| `Entities.ExceptOwnedByKeepsUniqueIds` | UPlayAPI/Controllers/CartController.cs:265 | removing a user's rows keeps keys unique |
| `Listing.Filter` | UPlayAPI/Controllers/CartController.cs:56-60 | each row whose service or participants contain the search is kept as often as it occurs, and no other row is kept; with no search, the table is kept as it is |
| `Listing.InsertNewestFirst` | UPlayAPI/Controllers/CartController.cs:61 | inserting into a newest-first sequence keeps it newest first and adds exactly the new row |
| `Listing.SortNewestFirst` | UPlayAPI/Controllers/CartController.cs:61 | the result is newest first by `CreatedAt` and is a permutation of the input |
| `Orders.CartTotal` | UPlayAPI/Controllers/CartController.cs:246 | the sum of the row prices: never negative when no price is, and zero when every price is |
| `Orders.CartTotalConcat` | UPlayAPI/Controllers/CartController.cs:246 | the total of two runs of rows is the sum of their totals |
| `Orders.DetailsOf` | UPlayAPI/Controllers/CartController.cs:251-262 | one detail per cart row, in the same order, each a field-for-field copy |
| `Orders.DetailsKeepTotal` | UPlayAPI/Controllers/CartController.cs:246 | the prices of the copied details add up to the cart total |
| `Orders.DetailsOfIsTheCopy` | UPlayAPI/Controllers/CartController.cs:251-262 | any list that copies the cart rows one by one is the details list |
| `Orders.AppendOrderKeepsKeys` | UPlayAPI/Controllers/CartController.cs:264 | adding an order with the next key and a matching total keeps the Orders table valid |
| `Payment.LineItemOf` | UPlayAPI/Controllers/CartController.cs:289-301 | a line item exists exactly when the price converts to cents; it has the service as name, the currency "sgd", that amount and quantity 1 |
| `Payment.LineItemsOf` | UPlayAPI/Controllers/CartController.cs:287-302 | fails exactly when some price does not convert; otherwise one line item per cart row, in order, charging for that row |
| `Payment.ChargedMatchesOrderTotal` | UPlayAPI/Controllers/CartController.cs:287-302 | for non-negative prices, the session charges at most the order total in cents and less than one cent per line item below it |
| `CartController.NewCart` | UPlayAPI/Controllers/CartController.cs:115-126 | the stored row has the service and participants trimmed; quantity, date, time and price copied from the request; both timestamps `now`; the caller as owner; and the key it is given |
| `CartController.Revised` | UPlayAPI/Controllers/CartController.cs:148-154 | the updated row keeps its key, owner and `CreatedAt`; it takes the trimmed service and participants and the quantity, date, time and price of the request, and `UpdatedAt` becomes `now` |
| `CartController.Store.GetAll` | UPlayAPI/Controllers/CartController.cs:53-61 | the listing is newest first and holds exactly the matching rows, each as often as in the table; with no search, all rows |
| `CartController.Store.GetCart` | UPlayAPI/Controllers/CartController.cs:83-89 | `NotFound` exactly when no row has the key; otherwise a row of the table with that key |
| `CartController.Store.AddCart` | UPlayAPI/Controllers/CartController.cs:111-130 | appends one row with trimmed text, `CreatedAt == UpdatedAt == now`, owned by the caller whatever user id was sent; no other row changes, and the new row is found by its key |
| `CartController.Store.UpdateCart` | UPlayAPI/Controllers/CartController.cs:134-157 | `NotFound` when the key is missing, `Forbid` when another user owns the row, with nothing changed in either case; otherwise only that row changes, to the revised fields, and it keeps its key, owner and `CreatedAt` |
| `CartController.Store.DeleteCart` | UPlayAPI/Controllers/CartController.cs:161-178 | `NotFound` and `Forbid` as for update, with nothing changed; otherwise exactly that row is removed |
| `CartController.Store.DeleteAllCarts` | UPlayAPI/Controllers/CartController.cs:182-195 | always `Ok`; removes exactly the caller's rows and keeps every other user's rows in order; with none, nothing changes |
| `CartController.Store.Checkout` | UPlayAPI/Controllers/CartController.cs:199-268 | an empty cart gives `BadRequest`, and a failing mail gives `Failed`, with nothing changed in either case; otherwise it adds one order keyed with the next key. That order belongs to the caller, has the cart total, and has one copied detail per cart row in order. The caller's rows are removed and other users' rows stay |
| `CartController.Store.CreateCheckoutSession` | UPlayAPI/Controllers/CartController.cs:273-302 | `BadRequest` exactly for an empty cart, `Failed` exactly when some price does not convert; otherwise one line item per cart row of the caller, in order; no table changes |

## Left out

- The SMTP confirmation mail (CartController.cs:210-238) is network I/O. It is reduced to the
  `mailSent` parameter of `Checkout`, which records whether `Send` returned normally. The mail's
  content and credentials are not modelled.
- The payment gateway (CartController.cs:283, 304-315) is a third-party call. The API key setup,
  `SessionService.Create` and the returned URL are not modelled, and neither are the fixed mode and
  redirect URLs. `CreateCheckoutSession` returns the line items it would submit.
- `GetUserId` (CartController.cs:30-35) reads authentication claims. The caller is a parameter and
  may be any integer. `Convert.ToInt32` turns a missing claim into 0. `CreateCheckoutSession` has
  no `[Authorize]`, so an anonymous request acts on the carts of user 0.
- `DateTime.Now` is a clock. It is the `now` parameter. `UpdateCart` and `Checkout` each read the
  clock once, so one value per call is enough.
- The `Include(t => t.User)` navigation and the `User?.Name` projection are database plumbing. So
  are the anonymous result objects. The listing returns the cart rows themselves.
- `UPlayAPI/Controllers/OrderController.cs` is not part of this model. It reads orders without any
  logic of its own.
- `UPlayAPI/MyDbContext.cs` is not part of this model. It only configures the connection.
- Concurrency, transactions and database failures (a failing `SaveChanges`, two checkouts racing)
  are not modelled. Each action is one sequential step on the store.
- The model assumes ordinal `Contains`. The filter really runs in MySQL, where the column collation
  usually makes the match case-insensitive. That collation is not modelled.
- The range and precision of `decimal` are not modelled. `real` is unbounded and exact.
  An `OverflowException` from `Sum` or from `price * 100` in `decimal` is therefore not modelled.
  `MinorUnits` does model the `long` range check.
- Null text fields (`cart.Service.Trim()` on null throws) and the framework's automatic model
  validation are not modelled. Strings here are never null.
- `Listing.SortNewestFirst`: rows with equal `CreatedAt` have no fixed order under SQL
  `ORDER BY`. The model keeps table order for them, but its contract promises only newest-first
  order and the same rows.
- The keys of `OrderDetails`, their foreign key to the order, and the `Order.User` navigation are
  not modelled. A detail is owned by its order's `details` sequence.
- The `Date` and `Time` fields are strings, copied verbatim. Their real types live in the
  `Models` folder, which is not part of this model. Nothing in the controller inspects them.
