# A verified model of the meal-ordering core

This project models the order pipeline of a small meal-ordering service: lunch, dinner and
"dinner-meals" are ordered ahead of a daily cutoff. It also covers the client-side cart that
fills an order. The model is written in Dafny and every contract below is proved.

**The document store.** `Store.Db` holds the menu, the one deadline per category, the daily
meal counters keyed by (category, day), the orders, the users and the locations. Documents with
an identity are kept in creation order, and a document's identity is its position, so
"newest first" means "highest identity first". `Db.Valid()` is the invariant every handler
keeps: identities equal positions, counters keyed by their own category and day, schema
minimums respected, one user per phone.

**Modules.**

| module | models |
|---|---|
| `Schema` | the stored records and their enumerations, the schema minimums, day and calendar-month arithmetic, and line pricing |
| `Text` | byte-order string comparison (an ascending sort on a string field) and the `trim` the menu schema applies |
| `Query` | filter, count, sum, "newest first", limit and sort on a field, with their laws |
| `Ledger` | placing an order (gates, pricing from the menu, the counter increment), recording a payment, the current order and the order history |
| `Admin` | creating and toggling menu items, setting a deadline, updating an order, setting a counter cap |
| `Reports` | the dashboard (daily figures, top dishes, monthly figures) and the administrator's order listing with its summary |
| `Auth` | requesting and verifying a one-time code, and the current-user projection |
| `Catalog` | the per-category menu with its deadline, and the full menu listing |
| `Locations` | the active-location listing, and location create, update and toggle |
| `Cart` | the client cart's actions and total, and the checkout request it produces |

Handlers that change the store are methods with `modifies` clauses on the fields they
write. Each method's `ensures` ties the new state to a pure function that is specified on
its own. Queries and the cart are pure functions.

Time is an integer count of milliseconds (`Instant`), and a calendar day is `Instant`
divided by the length of a day. Prices are integers.

## Model

| member | source | states |
|---|---|---|
| Ledger.CreateOrder | server/src/routes/order.ts:13-104 | An order is stored exactly when no check rejects it, and a rejected request stores nothing and touches no counter. A stored order takes the next identity, the user's name (or phone), the requested location, menu-priced snapshot lines, the day, status pending and unpaid; that day's counter for the meal is created at 1 or bumped by 1. The store invariant is kept. |
| Ledger.Rejection | server/src/routes/order.ts:18-74 | Each rejection happens exactly when every earlier check passed and its own check fails, in the handler's order: missing items, an invalid meal type, a missing location, a passed deadline, a reached cap, an unavailable item, an unknown user, and an order below the schema minimums. An unavailable item is reported under the name of the first unavailable line. A request is accepted exactly when it passes every check. |
| Ledger.CheckGates | server/src/routes/order.ts:18-43 | Each gate refuses exactly when every earlier gate passed and its own test fails: no items, a meal type that is not one of the three names, no location, a deadline record whose cutoff is before now, and today's counter at a set, non-zero cap. A request passes exactly when none of these holds. |
| Ledger.FirstUnavailable | server/src/routes/order.ts:49-53 | It finds the first requested line whose dish is missing or disabled, with every earlier line available; none is found exactly when every line is available. |
| Ledger.PriceLines | server/src/routes/order.ts:45-67 | The pricing loop stops at the first unavailable line. Otherwise it yields the menu snapshots of the lines and their total. |
| Ledger.Snapshots | server/src/routes/order.ts:59-66 | Each stored line carries the menu's identity, name, price and veg flag, together with the requested quantity and add-ons. |
| Ledger.Price | server/src/routes/order.ts:45-57 | The server-side total is never negative unless the request carries a negative quantity or add-on price, or a referenced menu price is negative. |
| Ledger.PriceIsSnapshotAmount | server/src/routes/order.ts:55-57 | The charged total equals the amount of the stored lines: unit price times quantity, plus each add-on once. |
| Ledger.ClientPriceIgnored | server/src/routes/order.ts:55 | The price a client sends has no effect on the total or on the stored lines. |
| Ledger.DisplayName | server/src/routes/order.ts:79 | An order is filed under the user's name, or under the phone when the name is unset or empty. |
| Ledger.Increment | server/src/routes/order.ts:90-99 | The counter for the key is created at 1 when missing and bumped by 1 otherwise; every other counter is untouched. |
| Ledger.IncrementWellFormed | server/src/models/MealCounter.ts:12-39 | Incrementing a real meal's counter keeps the counters keyed and within the schema minimums. |
| Ledger.Record | server/src/routes/order.ts:77-99 | Storing an order appends it and increments the counter, keeping the store invariant. |
| Ledger.CurrentOrder | server/src/routes/order.ts:112-124 | It returns the user's newest order dated today or later that is not delivered, or nothing when there is no such order. |
| Ledger.History | server/src/routes/order.ts:134-160 | It returns at most 50 of the user's orders that match the supplied date, meal type and status, newest first. An order is left out only when 50 newer matches fill the page. |
| Ledger.HistoryUnfiltered | server/src/routes/order.ts:138-155 | With no filter supplied, every order of the user qualifies. |
| Ledger.Pay | server/src/routes/order.ts:182-184 | Payment is recorded unless the request says false. A non-empty payment id replaces the old one. A paid order becomes accepted and an unpaid one keeps its status. Nothing else changes. |
| Ledger.PayIdempotent | server/src/routes/order.ts:182-184 | Recording the same payment twice is recording it once. |
| Ledger.PayWellFormed | server/src/routes/order.ts:186 | A payment keeps an order's identity, total and schema minimums. |
| Ledger.ReceiptOf | server/src/routes/order.ts:189-200 | The receipt carries the order's phone, identity, total and date, and each line's name, quantity and price in order. |
| Ledger.UpdatePayment | server/src/routes/order.ts:170-211 | An order that is missing, or belongs to another user, is not found and nothing changes. Otherwise exactly that order is replaced by its paid version, and a receipt is produced exactly when it is paid. |
| Ledger.IndexedAscending | server/src/models/Order.ts:126-128 | Identities following creation order ascend along the collection. |
| Admin.NewMenuItem | server/src/routes/admin.ts:19-33 | A missing field (including a zero price) is refused as incomplete. A complete form that fails the schema (unknown category, negative price, blank trimmed name) is refused as invalid. Otherwise the item has the trimmed name, a positive price, sub-items defaulting to empty, and is enabled. |
| Admin.SubItemsDefault | server/src/routes/admin.ts:32 | An accepted form without sub-items yields an item with none. |
| Admin.CreateMenuItem | server/src/routes/admin.ts:17-42 | It stores the new item under the next identity when it is accepted, and nothing otherwise. |
| Admin.ToggleEnabled | server/src/routes/admin.ts:81 | The enabled flag flips and nothing else changes. |
| Admin.ToggleEnabledTwice | server/src/routes/admin.ts:81 | Toggling twice restores the item. |
| Admin.ToggleMenuItem | server/src/routes/admin.ts:71-91 | An unknown identity is not found and nothing changes. Otherwise exactly that item is toggled. |
| Admin.NewDeadline | server/src/routes/admin.ts:97-112 | A deadline is refused exactly when the category or the cutoff is missing. The record is live only when that is asked for, and it is dated now. |
| Admin.SetDeadline | server/src/routes/admin.ts:95-121 | An accepted deadline replaces the category's one slot, and nothing else changes. |
| Admin.UpdatedOrder | server/src/routes/admin.ts:262-273 | Each supplied flag replaces the stored one. A supplied status must be one of the six names, or the update is refused. Nothing else changes. |
| Admin.UpdatedOrderIdempotent | server/src/routes/admin.ts:270-273 | Applying the same accepted update twice is applying it once. |
| Admin.DeliveredWhileUnpaid | server/src/routes/admin.ts:270-273 | The update imposes no lifecycle rule: an order can be marked delivered and unpaid at once. |
| Admin.UpdateOrder | server/src/routes/admin.ts:259-284 | An unknown identity is not found, and a refused update changes nothing. Otherwise exactly that order is replaced. |
| Admin.NegativeCapAcceptedAsWritten | server/src/routes/admin.ts:290-303 | As written, a cap of -1 passes the check, violates the schema minimum, and closes the meal to every order that day. |
| Admin.CapAcceptedWithinSchema | server/src/models/MealCounter.ts:28-31 | A cap the corrected check accepts also passes the written check and meets the schema minimum. |
| Admin.Capped | server/src/routes/admin.ts:299-303 | Setting a cap updates or creates exactly the counter for (category, day), which keeps its count or starts at 0; every other counter is untouched. |
| Admin.CappedGate | server/src/routes/order.ts:41-43 | After an accepted cap is set, the order gate closes exactly when that day's count has reached it. |
| Admin.SetCounterCap | server/src/routes/admin.ts:288-312 | A missing category or a cap below 1 (the corrected check of the Findings row) is refused and nothing changes. Otherwise the counters are capped for the given day, or today. |
| Reports.DailyOrders | server/src/routes/admin.ts:134-136 | The day's orders are exactly the stored orders dated that day. |
| Reports.Daily | server/src/routes/admin.ts:125-143 | The order count is the number of the day's orders. The paid count is the number of positions among them holding a paid order, never more than the order count. The revenue sums the totals of the paid ones only. |
| Reports.PaidRevenueMasked | server/src/routes/admin.ts:138-140 | Summing the totals of the paid orders equals summing each order's paid amount. |
| Reports.DailyIgnoresOtherDays | server/src/routes/admin.ts:134-136 | Appending an order of another day does not change a day's orders. |
| Reports.DailyIgnoresOtherDayUpdate | server/src/routes/admin.ts:134-143 | Changing an order of another day into one still of another day, as a payment or an update does, changes neither the day's orders nor its figures. |
| Reports.PaidRevenueNonNegative | server/src/models/Order.ts:100-104 | With totals at their schema minimum, revenue is never negative. |
| Reports.SoldSomewhere | server/src/routes/admin.ts:146-158 | A dish is sold exactly when some order line names it. |
| Reports.Record | server/src/routes/admin.ts:148-157 | One more line adds at most one entry, and only for a dish without one, so the entries stay one per dish. |
| Reports.Tally | server/src/routes/admin.ts:146-158 | The tally has one entry per dish and never more entries than lines. |
| Reports.TallyCorrect | server/src/routes/admin.ts:146-158 | The dish tally has one entry per sold dish. Each entry has the dish's first name, its total quantity over every line, and the revenue of its paid lines only. |
| Reports.TallyDishes | server/src/routes/admin.ts:146-158 | The tallying loop computes exactly that tally. |
| Reports.CountLine | server/src/routes/admin.ts:148-157 | One line adds its quantity to its dish's entry, creating the entry at zero if it is missing. It adds its revenue only when paid. |
| Reports.TopDishes | server/src/routes/admin.ts:160-162 | The top dishes are at most ten entries of the tally, by non-increasing quantity. |
| Reports.TopDishesProperties | server/src/routes/admin.ts:160-162 | With one tally entry per dish, the top dishes hold one entry per dish. A dish is left out only when ten dishes sold at least as much. |
| Reports.MonthlyOrders | server/src/routes/admin.ts:165-172 | The month's orders are exactly the paid stored orders dated in the same calendar month as the day. |
| Reports.Monthly | server/src/routes/admin.ts:165-174 | The month's figures count and sum the paid orders dated in the calendar month of the day. |
| Reports.DailyWithinMonth | server/src/routes/admin.ts:138-174 | A day's paid count and revenue never exceed its month's. |
| Reports.MonthIncludesLastDay | server/src/routes/admin.ts:165-172 | An example of the month running to its last day: a paid order dated 31 January 1970 counts in the figures for 1 January 1970. |
| Reports.Dashboard | server/src/routes/admin.ts:125-191 | The dashboard for the given day (or today) shows that day's figures, the top dishes of that day's orders, and that month's figures. |
| Reports.ListingPage | server/src/routes/admin.ts:200-227 | It returns at most 100 orders matching the supplied date, meal type, location and status, newest first. An order is left out only when 100 newer matches fill the page. |
| Reports.ListOrders | server/src/routes/admin.ts:229-235 | When a veg filter is supplied, only orders with a line of that kind remain from the page, still newest first. |
| Reports.Summarize | server/src/routes/admin.ts:238-246 | The summary's total is the number of listed orders. The packed, paid and delivered counts are each the number of positions of the listing holding such an order, and so at most the total. Revenue sums the paid orders only. |
| Reports.SummaryPaidSplit | server/src/routes/admin.ts:241-244 | The summary's paid count and the number of unpaid listed orders add up to the listing's length. |
| Query.CountPositions | server/src/routes/admin.ts:241-244 | Counting the elements that pass a condition gives the number of positions holding such an element. |
| Auth.RequestOtp | server/src/routes/auth.ts:10-34 | A phone that is not ten characters long is refused and nothing changes. Otherwise the code is issued to "+91" and the phone, expiring ten minutes from now. |
| Auth.IssuedOnePerPhone | server/src/routes/auth.ts:22-34 | Issuing a code keeps exactly one user per phone, who holds the code and its expiry; a user is added only when the phone is new. |
| Auth.FindByPhone | server/src/routes/auth.ts:22 | The lookup finds a user with exactly that phone, or reports that no user has it. |
| Auth.Issued | server/src/routes/auth.ts:22-34 | The user with the phone gets the code and expiry and nothing else changes; without one, a new unverified customer with no name or location is appended holding them. |
| Auth.FindByPhoneUnique | server/src/routes/auth.ts:22 | With phones unique, the lookup by phone finds that user. |
| Auth.VerifyRejection | server/src/routes/auth.ts:50-67 | Each rejection happens exactly when every earlier check passed and its own fails, in order: phone or code missing, no user with the prefixed phone, a code other than the stored one, a set expiry strictly before now. Verification succeeds exactly when none of these holds. |
| Auth.VerifyOtp | server/src/routes/auth.ts:46-96 | A rejected verification changes nothing. A successful one replaces exactly that user with the verified version and opens a session for them. |
| Auth.Verified | server/src/routes/auth.ts:70-74 | A verified user has the flag set and the code and its expiry cleared. Name and location change only when supplied. Identity, phone and role are kept. |
| Auth.SecondVerifyFails | server/src/routes/auth.ts:61-72 | A code works once: the same code is refused as a mismatch afterwards, at any time. |
| Auth.IssuedCodeVerifies | server/src/routes/auth.ts:20-67 | A code issued to a ten-digit phone is accepted up to ten minutes later and refused as expired after that. |
| Auth.Project | server/src/routes/auth.ts:89-95 | The public view shows identity, phone, name, location and role. |
| Auth.ProjectHidesCode | server/src/routes/auth.ts:116-129 | The public view does not depend on the code, its expiry or the verified flag. |
| Auth.Me | server/src/routes/auth.ts:104-133 | No credential or a bad one is unauthorized, and an unknown user is not found. Otherwise the result is the user's public view. |
| Auth.SessionIsMe | server/src/routes/auth.ts:78-128 | The session opened by a verification names the verified user. |
| Auth.FormatPhone | server/src/routes/auth.ts:18 | The stored phone is the prefix followed by the phone as entered. |
| Catalog.MenuFor | server/src/routes/menu.ts:8-30 | A category's menu holds exactly the enabled dishes of that category. It carries the category's deadline time and live flag when a record exists, and null otherwise. |
| Catalog.MenuForNewestFirst | server/src/routes/menu.ts:17 | Those dishes come newest first. |
| Catalog.UnknownCategoryEmpty | server/src/routes/menu.ts:14-17 | A category that is not a meal type offers nothing. |
| Catalog.CategoryRankIsNameOrder | server/src/routes/menu.ts:40 | The category rank is the ascending order of the category names. |
| Catalog.ListAll | server/src/routes/menu.ts:38-41 | The full listing is a rearrangement of the whole menu, enabled or not, sorted by category and then newest first. |
| Catalog.ListAllOrder | server/src/routes/menu.ts:40 | The full listing holds each dish once. Category names ascend, and within a category the newer dish comes first. |
| Locations.ActiveLocations | server/src/routes/location.ts:8-11 | The public listing holds exactly the active locations, each once, by name ascending. |
| Locations.CreateLocation | server/src/routes/location.ts:23-39 | A missing name is refused and nothing is stored. Otherwise an active location is stored under the next identity. |
| Locations.Patched | server/src/routes/location.ts:50-55 | Supplied fields replace stored ones, and the identity never changes. |
| Locations.PatchedIdempotent | server/src/routes/location.ts:50-55 | An empty update changes nothing, and an update applied twice is applied once. |
| Locations.UpdateLocation | server/src/routes/location.ts:47-64 | An unknown identity is not found and nothing changes. Otherwise exactly that location is updated. |
| Locations.Toggled | server/src/routes/location.ts:82 | The active flag flips and nothing else changes. |
| Locations.ToggledTwice | server/src/routes/location.ts:82 | Toggling twice restores the location. |
| Locations.ToggleLocation | server/src/routes/location.ts:72-88 | An unknown identity is not found and nothing changes. Otherwise exactly that location's flag flips. |
| Locations.ToggleTwiceRestores | server/src/routes/location.ts:76-83 | Toggling the same location twice restores the stored locations. |
| Locations.ToggleListing | server/src/routes/location.ts:10-82 | A toggle moves that location into or out of the public listing, and every other location stays in or out of the listing as it was. |
| Cart.AddItem | client/src/store/cartStore.ts:36-49 | A dish already in the cart gets one more and nothing else changes. Any other dish is appended with a quantity of one. The cart stays valid. |
| Cart.RemoveItem | client/src/store/cartStore.ts:50-52 | Exactly the lines of other dishes remain. |
| Cart.RemoveItemKeepsOrder | client/src/store/cartStore.ts:50-52 | Removing a dish takes out its one line and keeps the rest in their order; removing an absent dish changes nothing. The cart stays valid. |
| Cart.UpdateQuantity | client/src/store/cartStore.ts:53-63 | A quantity of zero or less behaves exactly as removing the dish. Otherwise only that dish's quantity is set. The cart stays valid. |
| Cart.AddAddOn | client/src/store/cartStore.ts:64-75 | The add-on is appended to that dish's add-ons only. The cart stays valid. |
| Cart.RemoveAddOn | client/src/store/cartStore.ts:76-87 | Every add-on of that name, duplicates included, leaves that dish. The add-ons that remain and those of that name together are the dish's old add-ons, counted with their repetitions. Every other dish and every other field stay as they were. The cart stays valid. |
| Cart.RemoveAbsentAddOn | client/src/store/cartStore.ts:76-87 | Removing an add-on no dish carries changes nothing. |
| Cart.SetMealType | client/src/store/cartStore.ts:88 | Only the meal changes. |
| Cart.ClearCart | client/src/store/cartStore.ts:89 | The cart becomes empty with no meal, and it totals zero. |
| Cart.Total | client/src/store/cartStore.ts:90-100 | The cart total is never negative unless a line carries a negative unit price, quantity or add-on price. |
| Cart.TotalAfterAddItem | client/src/store/cartStore.ts:36-100 | Adding a dish already in the cart raises the total by its unit price. A new dish raises it by its whole line. |
| Cart.TotalAfterRemoveItem | client/src/store/cartStore.ts:50-100 | Removing a dish lowers the total by its whole line. |
| Cart.TotalAfterAddAddOn | client/src/store/cartStore.ts:64-100 | An add-on raises the total by its price once, whatever the quantity. |
| Cart.TotalAfterRemoveAddOn | client/src/store/cartStore.ts:76-100 | Removing an add-on lowers the total by the prices of every add-on of that name the dish carried, each counted once, whatever the quantity. |
| Cart.CheckoutCharge | client/src/store/cartStore.ts:90-100 | When every cart line carries the menu's current price, the cart total equals what the server charges for the checkout. |
| Query.Filter | server/src/routes/admin.ts:232-235 | A filter never grows. |
| Query.FilterMembers | server/src/routes/admin.ts:232-235 | A filter keeps exactly the elements that pass. |
| Query.FilterSplit | server/src/routes/admin.ts:241-244 | Elements that pass and elements that fail rearrange into the whole collection. |
| Query.NewestPage | server/src/routes/order.ts:157-160 | A newest-first page holds at most the limit, newest first. A match is left out only when the page is full of newer matches. |
| Query.Sort | server/src/routes/menu.ts:40 | A sort rearranges its input, keeping its length and every element with its multiplicity. |
| Query.SortSorted | server/src/routes/menu.ts:40 | Sorting by a total preorder yields a sorted rearrangement. |
| Query.DistinctKeysPermutation | server/src/routes/admin.ts:160-162 | A rearrangement keeps keys distinct. |
| Schema.ParseMealType | server/src/models/Order.ts:90-94 | It accepts exactly the three meal-type names. |
| Schema.ParseStatus | server/src/models/Order.ts:120-124 | It accepts exactly the six status names. |
| Schema.DayOf | server/src/routes/admin.ts:128 | The day of an instant is the whole day, counted from the epoch, whose span contains it. |
| Schema.MonthOf | server/src/routes/admin.ts:165-166 | The calendar month of a day is always between 1 and 12. |
| Schema.DayOfYearBounds | server/src/routes/admin.ts:165-166 | Every day of a 400-year era falls on day 0 to 365 of its year. |
| Schema.MonthOfEraShift | server/src/routes/admin.ts:165-166 | The calendar repeats every 146097 days: same month, year plus 400. |
| Schema.MonthOfLeapDay | server/src/routes/admin.ts:165-166 | The calendar month computation places 29 February 2024 in February and 1 March in March. |
| Text.Trim | server/src/models/Menu.ts:18-22 | Trimming removes exactly the leading and trailing whitespace, and is empty only for an all-space name. |
| Text.LexLeTransitive | server/src/routes/location.ts:10 | The ascending string order is transitive. |
| Store.Db.constructor | server/src/models/MealCounter.ts:38-39 | An empty store holds nothing and satisfies the store invariant every handler keeps: identities equal positions, one deadline per category, one counter per category and day keyed by its own pair, every order and counter within the schema minimums, one user per phone. |
| Store.OrdersSnoc | server/src/models/Order.ts:67-129 | Appending a well-formed order under the next identity keeps the orders well formed. |

## Left out

- Time zones. A calendar day is a fixed number of milliseconds of the instant. The handlers' `setHours(0, 0, 0, 0)` truncates in the server's local zone, and `DayOf` truncates in UTC.
- Floating point. Prices, totals and quantities are integers. The `number` arithmetic of the sources is not modelled, nor are fractional quantities.
- Unparseable inputs. An `_id` that is not an ObjectId and a date string that does not parse are not modelled, since both end in a server error. Identities are positions and dates are already instants.
- Body shapes. A non-array `items` field is treated as an empty list. A field the handler reads as missing arrives as `""`, `[]` or `None`. `price` in the menu form is read as `Some(0)` when zero, because `!price` refuses it.
- Network, I/O and concurrency. The code generator and the OTP and WhatsApp messages are left out: the code arrives as a parameter, and the receipt is returned as a value. Two orders racing for the last capped place are not modelled; every handler runs to completion on its own. The client saves the cart to the browser's local storage and restores it on load; that persistence is not modelled, and the cart starts empty.
- Token signing. Tokens are an unforgeable value holding the user and role, and a credential is missing, bad or a valid token. JWT expiry is not modelled.
- Authentication middleware and the administrator role check. These files are not part of this model. Handlers take the authenticated user's identity as a parameter.
- The user and location models. These files are not part of this model. Their fields are the ones the handlers read or write. A new user is an unverified customer with no name or location, and a new location is active.
- Auth.RequestOtp: the check is a length check only, as the code is written, and does not require the characters to be digits. The code's `phone.length` counts UTF-16 code units while `|phone|` counts code points, so the two differ for a phone holding a character outside the Basic Multilingual Plane.
- Locations.UpdateLocation: the update carries name, address and active flag only. The general location update endpoint applies any client fields, and the location schema's validators are not modelled. The menu-item update endpoint is not modelled.
- `populate` and timestamps. Populated references and `createdAt`/`updatedAt` are not modelled; creation order is position order.
- Query.Sort: the sort is an insertion sort, so ties keep their input order. Whether the database breaks ties the same way is not modelled; only sortedness and the rearrangement are proved.
- Reports.TopDishes: the sort is stable, so dishes with equal counts keep the order in which the day's orders and lines are met. That order is taken to be store order; the order in which the database returns the day's orders is not modelled.
- Cart.RemoveAddOn: the contract fixes the remaining add-ons with their repetitions, but not their order.
- Ledger.Pay: the status becomes accepted whenever the order is paid, even when an administrator had already moved it further along, as the code does.

## Findings

| source | as written | input that shows it | evidently intended | confidence | as-written member | corrected member |
|---|---|---|---|---|---|---|
| server/src/routes/admin.ts:292-303 | The cap check only refuses a missing or zero `maxOrders`. `findOneAndUpdate` does not run the schema's `min: 1` validator, so any other number is stored. | `POST /api/admin/counter` with `{"category": "lunch", "maxOrders": -1}`. The stored counter has `maxOrders = -1`, so the gate `counter.maxOrders && counter.orderCount >= counter.maxOrders` (order.ts:41) holds at count 0 and refuses every lunch order that day. | A stored cap is at least 1, as MealCounter.ts:28-31 declares, and a meal without a cap or with a positive cap stays open until the count reaches it. | not executed | Admin.NegativeCapAcceptedAsWritten | Admin.SetCounterCap |
