# Shake Hub ordering core, modelled in Dafny

Shake Hub is a restaurant ordering web app. Customers browse a menu grouped by
category, fill a cart and place an order for their table. An admin curates the
menu and clears pending orders. Its state lives in two document collections:
menu items and orders.

This project models the logic of that app:

- **Record schemas** (`MenuItemSchema`, `OrderSchema`). The menu item schema has
  its required fields, its optional image and its nine-string category enum
  (spelled "Mojio"). The order schema has its required fields, the
  `pending`/`in-progress`/`ready` status enum with its default, the four-field
  line shape and the timestamps.
- **Menu endpoints** (`MenuApi`): add, update, delete and get. Add, update and
  delete are each a pure step function over a `map<Id, MenuItem>` that gives the
  reply (status code and record) and the new collection. A method of class
  `MenuStore` performs the same step on its `items` field. Get is the read-only
  method `MenuStore.List`, specified by the listing it must return (`IsListing`).
- **Order endpoints** (`OrderApi`): place, mark ready, and list pending newest
  first. Place and mark ready follow the same step-function pattern over
  `map<Id, Order>` and class `OrderStore`. The listing is the read-only method
  `OrderStore.ListPending`, specified by `IsPendingListing`.
- **Customer menu page** (`Cart`, `MenuPage`). `Cart` covers the cart
  transitions (add, "+", "−") and the total. `MenuPage` covers grouping by
  category in first-appearance order, the collapse toggle, the lower-case
  search, session-id reuse, and checkout. The page's state cells are fields of
  class `CustomerMenu`.
- **Admin dashboard** (`AdminPage`): the form check, list bookkeeping after add,
  update, delete and clear, the order poll's result handling, the show/hide
  toggle and the form reset. The state cells are fields of class
  `AdminDashboard`.

Inputs that the source gets from outside are parameters:

- the HTTP verb;
- whether connecting to the database succeeds (`storeUp`);
- the id the store assigns to a new document (`freshId`);
- the UUID a handler or page would generate (`freshToken`, `token`);
- the time (`now`);
- the request cookie;
- `confirm` answers (`confirmed`);
- how each client-side `fetch` ended (`Answer`, `FetchOutcome`, `OrdersFetch`).

Prices and totals are integer rupees.

Where the code and the design notes of the system differ, the model follows the
code:

- The add handler also refuses a price sent as the JSON number 0, because its check is truthiness, not presence. A price sent as the string "0" is truthy and passes.
- Updating an unknown menu id answers 200 with a null item, not 404.
- Deleting an unknown id answers 200 with `success: true`.
- `findByIdAndUpdate` runs no schema validators, so an update can store a
  category outside the enum (`MenuApi.UpdateSkipsSchema`).
- The delete, update and order handlers connect to the database before checking
  the verb, and outside their `try`. When connecting fails (the connection
  helper throws), they answer 500 even to a wrong verb. The add handler and the menu get handler check the verb first.
- The place handler sets the `Set-Cookie` header before inserting. A request
  with no cookie whose order the schema then refuses still receives the cookie
  with its 500.
- A failed order poll on the admin dashboard empties its order list. An
  unsuccessful reply or a thrown fetch gives `[]`, and so does a successful reply
  without orders. The previous list does not stay on screen.
- Marking an order ready also stamps `updatedAt`. A repeated call therefore
  changes only that timestamp.

## Model

| member | source | states |
|---|---|---|
| MenuItemSchema.ValidateAccepts | src/models/MenuItem.js:4-11 | a document is accepted iff name is a non-empty string, price is present and category is present and in the enum; the stored item then has exactly those field values |
| MenuItemSchema.ImageIsOptional | src/models/MenuItem.js:6 | leaving the image out never changes whether a document is accepted |
| MenuItemSchema.ZeroPriceSatisfiesSchema | src/models/MenuItem.js:5 | `required` on a Number accepts 0: a named, enum-category item priced 0 is valid for the schema |
| MenuItemSchema.CategoryMustBeInEnum | src/models/MenuItem.js:7-11 | with the other fields present, acceptance is exactly membership of the category in the nine enum strings |
| MenuItemSchema.MojitoIsNotACategory | src/models/MenuItem.js:10 | records, as a fact about the enum constant, that it holds "Mojio" and not "Mojito" |
| OrderSchema.StatusName | src/models/Order.js:16 | every status is named by one of the three enum strings |
| OrderSchema.ParseStatus | src/models/Order.js:16 | a status string is accepted iff it is one of `pending`, `in-progress`, `ready` |
| OrderSchema.StatusRoundTrip | src/models/Order.js:16 | naming a status and parsing it back yields that status; parsing yields a status only for its own name |
| OrderSchema.StatusOrDefault | src/models/Order.js:16 | a status results iff the given string is absent or one of the enum strings, and the status is named by the given string, or by `pending` when none was given |
| OrderSchema.CastDropsUndeclared | src/models/Order.js:7-14 | lines differing only in undeclared fields (image, category) are stored identically |
| OrderSchema.CreateAccepts | src/models/Order.js:5-16 | an order is created iff sessionId and table are non-empty and total is present and status is absent or in the enum; the order then has the assigned id, `createdAt == updatedAt == now`, the given sessionId, table and total, one line per sent line keeping its `_id`, name, price and quantity, and the given status or `pending` |
| OrderSchema.StatusDefaultsToPending | src/models/Order.js:16 | an order created without a status is `pending` |
| JsSemantics.OrElse | src/pages/api/menu/add.js:20 | `v \|\| fallback` is one of its two operands; a truthy value is returned; it differs from the fallback only when the value is truthy; it is falsy exactly when both operands are |
| JsSemantics.Lower | src/pages/menu.js:106 | lowering keeps the length, leaves no capital ASCII letter, and changes a character only where it is a capital, into its small letter |
| JsSemantics.LowerIdempotent | src/pages/menu.js:128 | lowering an already lowered term changes nothing |
| JsSemantics.IncludesIff | src/pages/menu.js:128 | `s.includes(t)` holds iff `t` occurs at some position of `s` |
| JsSemantics.IncludesEmpty | src/pages/menu.js:128 | every string includes the empty string |
| Http.FindIds | src/pages/api/menu/get.js:11 | the cursor yields every id of the collection exactly once and nothing else |
| MenuApi.AddDraft | src/pages/api/menu/add.js:20 | the document built for saving always carries an image; it is "" exactly when the body's image was missing or empty, and the body's image otherwise |
| MenuApi.AddOutcomes | src/pages/api/menu/add.js:4-28 | the add handler answers only 201, 400, 405 or 500; a non-POST answers 405 whatever the database state; any answer but 201 leaves the store unchanged |
| MenuApi.AddRejectsMissingFields | src/pages/api/menu/add.js:15-17 | 400 iff a POST reaches a reachable store with name, price or category missing or falsy (empty string, price 0) |
| MenuApi.AddRejectsZeroPrice | src/pages/api/menu/add.js:15-17 | a price sent as the number 0 is refused with 400 and the store is unchanged |
| MenuApi.AddCreatesOne | src/pages/api/menu/add.js:20-23 | a complete POST with an enum category returns 201 with the new item, stores exactly one new item under the fresh id built from the body's four fields, and leaves every other item unchanged |
| MenuApi.AddDefaultsImage | src/pages/api/menu/add.js:20 | an absent or empty image is stored as "" |
| MenuApi.AddSchemaRejection | src/pages/api/menu/add.js:24-27 | a category outside the enum passes the handler's check, fails the schema, answers 500 and inserts nothing |
| MenuApi.AddIgnoresExtraFields | src/pages/api/menu/add.js:12 | records that the handler's destructuring drops `available`: it does not affect the outcome |
| MenuApi.AddThenList | src/pages/api/menu/add.js:20-21 | after a successful add, any listing of the store contains the new item with the body's fields |
| MenuApi.ApplyUpdate | src/pages/api/menu/update.js:11-12 | updating an item keeps its id |
| MenuApi.UpdateKnownId | src/pages/api/menu/update.js:9-20 | a PUT on a stored id answers 200 with the post-update item: the body's name, price and category, and the body's image if truthy or else the stored one; every other item is unchanged |
| MenuApi.UpdateUnknownId | src/pages/api/menu/update.js:14-20 | a PUT on an unknown id answers 200 with a null item and changes nothing |
| MenuApi.UpdateWrongVerb | src/pages/api/menu/update.js:26 | a non-PUT answers 405 and changes nothing |
| MenuApi.UpdateSkipsSchema | src/pages/api/menu/update.js:14-18 | an update can store a category outside the enum, e.g. "Mojito" |
| MenuApi.DeleteRemovesOnly | src/pages/api/menu/delete.js:9-11 | after a DELETE the id is absent, the other items are exactly as before, and the answer is 200 success, also for an unknown id (then nothing changes) |
| MenuApi.DeleteIdempotent | src/pages/api/menu/delete.js:10-11 | deleting the same id twice gives the same store and answer as once |
| MenuApi.DeleteWrongVerb | src/pages/api/menu/delete.js:17 | a non-DELETE answers 405 and changes nothing |
| MenuApi.DeleteThenList | src/pages/api/menu/delete.js:10 | a listing after the delete contains no item with that id |
| MenuApi.MenuStore.constructor | src/models/MenuItem.js:14 | the collection starts empty |
| MenuApi.MenuStore.Add | src/pages/api/menu/add.js:4-28 | the stored map and the reply are those of the add step, and every item stays under its own id |
| MenuApi.MenuStore.Update | src/pages/api/menu/update.js:4-27 | the stored map and the reply are those of the update step |
| MenuApi.MenuStore.Delete | src/pages/api/menu/delete.js:4-18 | the stored map and the reply are those of the delete step |
| MenuApi.MenuStore.List | src/pages/api/menu/get.js:4-17 | a GET answers 200 with every stored item exactly once and nothing else, reading only; a non-GET answers 405 before the store is touched; an unreachable store answers 500 |
| OrderApi.PlaceCreatesPending | src/pages/api/order/place.js:27-29 | a POST answers 201 iff the body has a non-empty table and a total and the chosen session id is non-empty; it then stores exactly one new order under the fresh id, with status `pending`, the chosen session id, the table, the lines cast and the total as sent, both timestamps set to now; otherwise it answers 500 and stores nothing |
| OrderApi.PlaceOverridesBody | src/pages/api/order/place.js:27 | a `status` or `sessionId` in the body never changes the outcome |
| OrderApi.PlaceSessionCookie | src/pages/api/order/place.js:11-25 | the session id is the cookie's when present and the fresh token otherwise; a `sessionId` cookie (httpOnly, sameSite strict, path /, max-age 604800 s) is set iff the request had none |
| OrderApi.PlaceWrongVerb | src/pages/api/order/place.js:36 | a non-POST answers 405, sets no cookie and creates nothing |
| OrderApi.MarkReadyKnown | src/pages/api/order/update.js:12-22 | a known id answers 200 with the updated order, now `ready` whatever it was before; only its status and `updatedAt` change, and no other order changes |
| OrderApi.MarkReadyUnknown | src/pages/api/order/update.js:18-20 | an unknown id answers 404 and changes nothing |
| OrderApi.MarkReadyIdempotent | src/pages/api/order/update.js:12-22 | a second mark-ready answers 200 again and changes at most `updatedAt`; at the same time it changes nothing |
| OrderApi.MarkReadyWrongVerb | src/pages/api/order/update.js:29 | a non-PUT answers 405 and changes nothing |
| OrderApi.PendingOnlyMembers | src/pages/api/order/get.js:10 | the filter keeps exactly the orders whose status is `pending` |
| OrderApi.PendingOnlyDistinct | src/pages/api/order/get.js:10 | filtering keeps order ids distinct |
| OrderApi.InsertByNewestPermutes | src/pages/api/order/get.js:10 | an insertion adds the one order and nothing else |
| OrderApi.InsertByNewestSorted | src/pages/api/order/get.js:10 | inserting into a newest-first list keeps it newest first |
| OrderApi.SortNewestFirstCorrect | src/pages/api/order/get.js:10 | the sort permutes its input, orders it by `createdAt` descending and keeps ids distinct |
| OrderApi.PendingNewestFirstCorrect | src/pages/api/order/get.js:10 | the listing holds exactly the pending orders, each as often as in the input, newest first |
| OrderApi.PendingListingOf | src/pages/api/order/get.js:10 | filtering and sorting an enumeration of the whole collection yields its pending orders, each once, newest first |
| OrderApi.ReadyNeverListed | src/pages/api/order/get.js:10 | once an order is marked ready, no later pending listing contains it |
| OrderApi.OrderStore.constructor | src/models/Order.js:21 | the collection starts empty |
| OrderApi.OrderStore.Place | src/pages/api/order/place.js:6-37 | the stored map, the reply and the cookie are those of the place step |
| OrderApi.OrderStore.MarkReady | src/pages/api/order/update.js:4-30 | the stored map and the reply are those of the mark-ready step |
| OrderApi.OrderStore.ListPending | src/pages/api/order/get.js:5-20 | a GET answers 200 with every stored pending order exactly once and nothing else, newest first, reading only; a non-GET answers 405; an unreachable store answers 500 |
| Cart.KeepPositiveMembers | src/pages/menu.js:148 | the quantity filter keeps exactly the lines with a positive quantity |
| Cart.DecrementLeavesPositive | src/pages/menu.js:144-148 | after "−" every line's quantity is positive, whatever the cart held |
| Cart.DecrementAt | src/pages/menu.js:144-148 | on a well-formed cart, "−" lowers the item's line by one, or removes it when it was 1; the other lines stay in order |
| Cart.DecrementAbsent | src/pages/menu.js:193-197 | "−" for an item with no line leaves a well-formed cart unchanged |
| Cart.AddKeepsWellFormed | src/pages/menu.js:130-161 | "Add to Cart", offered only when no line has the item's id, keeps quantities at least 1 and ids distinct, and puts the item in the cart |
| Cart.IncrementKeepsWellFormed | src/pages/menu.js:152-156 | "+" keeps quantities at least 1 and ids distinct |
| Cart.DecrementKeepsWellFormed | src/pages/menu.js:144-148 | "−" keeps quantities at least 1 and ids distinct |
| Cart.TotalAppend | src/pages/menu.js:213 | the total of two carts joined is the sum of their totals |
| Cart.TotalSplit | src/pages/menu.js:72 | the total is the lines before a line, plus that line's price × quantity, plus the lines after it |
| Cart.TotalReplace | src/pages/menu.js:72 | replacing one line changes the total by the difference of the two lines' amounts |
| Cart.TotalAfterAdd | src/pages/menu.js:161 | adding an item raises the total by its price |
| Cart.IncrementAt | src/pages/menu.js:152-156 | on a well-formed cart "+" raises exactly the clicked line by one and leaves every other line as and where it is |
| Cart.TotalAfterIncrement | src/pages/menu.js:201-205 | on a well-formed cart "+" raises the total by that item's price |
| Cart.TotalAfterDecrement | src/pages/menu.js:193-197 | on a well-formed cart "−" lowers the total by that item's price, also when the line is removed |
| MenuPage.FirstAppearancesMembers | src/pages/menu.js:37-46 | a category is listed iff some item has it, and none is listed twice |
| MenuPage.FirstAppearanceOrder | src/pages/menu.js:37-46 | categories are listed in first-appearance order: before any item of a later-listed category stands an item of each earlier-listed one |
| MenuPage.InCategoryMembers | src/pages/menu.js:38-43 | a category's group holds exactly the items of that category, so each item lies in exactly the group of its own category |
| MenuPage.InCategoryNone | src/pages/menu.js:39-41 | a category no item has has an empty group |
| MenuPage.GroupByCategory | src/pages/menu.js:37-46 | the keys are the categories in first-appearance order, and each group is that category's items in input order |
| MenuPage.InitialCollapse | src/pages/menu.js:49-53 | every category starts expanded |
| MenuPage.ToggleFlipsOne | src/pages/menu.js:116-119 | the toggle flips the clicked category only, and a second click restores it |
| MenuPage.VisibleMembers | src/pages/menu.js:128 | for any search term, an item passes the filter iff it is in the group and the term occurs at some position of its lowered name |
| MenuPage.VisibleIff | src/pages/menu.js:106-128 | an item is shown iff its lower-cased name contains the lower-cased typed text |
| MenuPage.EmptySearchShowsAll | src/pages/menu.js:128 | with an empty search every item of the group is shown, in order |
| MenuPage.SessionId | src/pages/menu.js:20-27 | a truthy stored session id is the one used; otherwise the new token is |
| MenuPage.SessionIdReused | src/pages/menu.js:20-27 | once a session id is stored, later visits use the same one |
| MenuPage.OrderRequestFor | src/pages/menu.js:62-74 | nothing is sent iff the cart is empty; otherwise the request carries the cart, the table and the cart's total |
| MenuPage.CheckoutStoresCartTotal | src/pages/menu.js:68-74 | for a non-empty cart and a table, the stored order is `pending`, holds the cart's lines cast to the line schema and the table, and its total equals the cart's sum of price × quantity |
| MenuPage.CheckoutScenario | src/pages/menu.js:72 | item A at ₹100 taken twice and item B at ₹50 once form two lines totalling ₹250 |
| MenuPage.CustomerMenu.constructor | src/pages/menu.js:11-17 | the page starts with no session id, no menu, an empty closed cart, an empty search and nothing collapsed |
| MenuPage.CustomerMenu.InitSession | src/pages/menu.js:20-27 | the session id is the stored one if truthy, otherwise the new token, which is then stored |
| MenuPage.CustomerMenu.LoadMenu | src/pages/menu.js:30-59 | a fetched menu is grouped and all its categories expanded; a failed fetch changes nothing |
| MenuPage.CustomerMenu.Search | src/pages/menu.js:106 | the search term is the typed text lowered |
| MenuPage.CustomerMenu.ToggleCategory | src/pages/menu.js:116-119 | the collapse map is toggled at the clicked category |
| MenuPage.CustomerMenu.Shown | src/pages/menu.js:125-128 | a collapsed category shows no items; an expanded one shows exactly its items in whose lowered name the search term occurs, and the page keeps that term lower-case |
| MenuPage.CustomerMenu.AddItem | src/pages/menu.js:161 | the cart gains the item with quantity 1 at the end, stays well formed, and its total rises by the item's price |
| MenuPage.CustomerMenu.IncrementItem | src/pages/menu.js:152-156 | the cart is the "+" transition of the old cart and stays well formed |
| MenuPage.CustomerMenu.DecrementItem | src/pages/menu.js:144-148 | the cart is the "−" transition of the old cart and stays well formed |
| MenuPage.CustomerMenu.SetCartOpen | src/pages/menu.js:177-186 | the drawer is open or closed as clicked |
| MenuPage.CustomerMenu.PlaceOrder | src/pages/menu.js:62-94 | an empty cart sends nothing; otherwise the request for the cart is sent, and only a successful response empties the cart and closes the drawer |
| AdminPage.RemoveByIdMembers | src/pages/admin/index.js:84 | the filter drops exactly the entries with that id |
| AdminPage.RemoveByIdAppend | src/pages/admin/index.js:84 | the filter works piecewise, so the kept entries keep their order |
| AdminPage.RemoveByIdAbsent | src/pages/admin/index.js:104 | with no entry of that id the list is unchanged |
| AdminPage.ReplaceById | src/pages/admin/index.js:131-133 | the list keeps its length, and every entry of the result is the returned item or an entry of the old list with another id |
| AdminPage.ReplaceByIdAt | src/pages/admin/index.js:131-133 | on a list with distinct ids, replacing the id of entry `k` changes entry `k` only, into the returned item |
| AdminPage.ReplaceByIdOthers | src/pages/admin/index.js:131-133 | when the returned item keeps the edited id, the entries with other ids are exactly as before and in the same order |
| AdminPage.ReplaceByIdAbsent | src/pages/admin/index.js:131-133 | with no entry of that id the list is unchanged |
| AdminPage.OrdersAfterFetch | src/pages/admin/index.js:34-43 | a successful reply's orders replace the list; a successful reply without orders, an unsuccessful reply and a thrown fetch each empty it; so a non-empty list always comes from a successful reply carrying exactly it |
| AdminPage.FormCheckMatchesHandler | src/pages/admin/index.js:154-157 | the page's form check and the add handler's check accept the same bodies |
| AdminPage.FormMojitoRejected | src/pages/admin/index.js:15 | the form's "Mojito" passes both checks, and then the schema rejects it: 500, nothing stored |
| AdminPage.FormCategoriesAgreeButOne | src/pages/admin/index.js:6-16 | records, as a fact about the two category constants, that every form category except "Mojito" is in the schema enum |
| AdminPage.AdminDashboard.constructor | src/pages/admin/index.js:19-27 | the dashboard starts with a cleared form, no menu items, no orders and the menu hidden |
| AdminPage.AdminDashboard.ResetForm | src/pages/admin/index.js:190-196 | all four fields become empty and nothing is being edited |
| AdminPage.AdminDashboard.ApplyOrdersFetch | src/pages/admin/index.js:30-44 | the order list is replaced wholesale by the poll's result |
| AdminPage.AdminDashboard.ToggleMenu | src/pages/admin/index.js:55-68 | a visible menu is hidden without a request; a hidden one is fetched, then stored and shown if the fetch succeeded, or stays hidden if it failed |
| AdminPage.AdminDashboard.ClearOrder | src/pages/admin/index.js:71-91 | a confirmed clear sends a request; a successful answer drops exactly that order's entries; anything else changes nothing |
| AdminPage.AdminDashboard.DeleteItem | src/pages/admin/index.js:95-108 | a confirmed delete sends a request; any returned response, whatever its status, drops that item from the list; only a thrown fetch keeps it |
| AdminPage.AdminDashboard.Edit | src/pages/admin/index.js:144-150 | the form holds the item's fields and its id is being edited |
| AdminPage.AdminDashboard.UpdateItem | src/pages/admin/index.js:111-143 | with nothing being edited, nothing is sent or changed; otherwise the form is sent, and a successful answer replaces only the edited entry and resets the form |
| AdminPage.AdminDashboard.AddItem | src/pages/admin/index.js:153-187 | an incomplete form sends nothing and changes nothing; otherwise the form is sent with `available: true`, and a successful answer resets the form and appends the returned item at the end |

## Left out

- The image upload relay and the uploader component are not part of this model. They forward files to a third-party image host through libraries whose code is not visible here.
- JSX rendering, `toast`, `alert` and `confirm` dialogs are left out. A `confirm` answer is a boolean input.
- The page's `loading` flag is left out. It only disables a button while a request is in flight.
- The 5-second poll timer and overlapping in-flight fetches are left out. Each fetch result is an input, applied on its own.
- HTTP transport, `dbConnect` and the Mongoose connection are left out. A failed connection is the input `storeUp = false`.
- Ids are natural numbers. A malformed id string makes Mongoose throw a cast error, which the handlers turn into 500. The model does not distinguish this from `storeUp = false`.
- The cookie's `secure` flag is left out, because it depends on the deployment environment.
- UUID generation is left out, because it is random. Tokens are parameters.
- Prices and totals are integer rupees. JavaScript floating-point arithmetic is not modelled.
- Mongoose's casting of string prices from form inputs is not modelled.
- AdminPage.AdminDashboard.AddItem: the price field is an integer, with 0 standing for the empty input. In the page it is the typed string. A typed "0" is truthy for the page's check and the handler's check, and Mongoose casts it to 0 and stores an item priced 0. The model cannot send that request, so it does not capture that a price of 0 can be stored this way.
- OrderApi.PlaceStep: a database failure during the insert itself, after the `Set-Cookie` header was set, is not modelled. The source then answers 500 with the cookie. The model has only a failed connection, `storeUp = false`, which answers 500 without a cookie.
- Type mismatches in request bodies (a number where a string is expected) are not modelled. Body fields have their schema types.
- OrderApi.PlaceStep: the body's spread-in fields other than table, items, total, sessionId and status (a client `_id` or `createdAt`) are not modelled.
- MenuApi.UpdateStep: a request lacking name, price or category is not modelled, because the admin page always sends all three.
- AdminPage.AdminDashboard.UpdateItem: the successful answer's item is taken as present. If someone else has deleted the item, the source writes `null` into the list. The model does not capture this.
- AdminPage.AdminDashboard.ToggleMenu: a 500 reply's error object is treated like a thrown fetch. The source would store that non-array object and fail when rendering.
- MenuPage.GroupByCategory: JavaScript's ordering of integer-like object keys is not modelled. Nor are category names that collide with `Object.prototype` members, such as "constructor". Enum categories are neither.
- MenuApi.MenuStore.List: the listing promises no order, because the store's natural order is unspecified.
- The "Add to Cart" guard is evaluated at render time, while the update uses the latest cart. Two clicks before a re-render are not modelled.
- JsSemantics.Lower lower-cases ASCII letters only. Unicode case mapping is not modelled.
- The `in-progress` status exists in the enum, but no flow sets it.
