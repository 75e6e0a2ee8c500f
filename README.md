# FirehorseBook storefront core in Dafny

FirehorseBook is a small online bookshop. It has a React front end and a
Spring Boot back end. This project models the parts of it that decide
what a shopper sees and what gets stored:

- the browser-side cart, kept in `localStorage` under `cart_<owner>`, and the
  owner key: the user id, or a guest id in `sessionStorage`, with a one-time
  migration of the legacy `cart_guest` cart;
- the cart page: loading, changing a quantity, removing a line, clearing, checkout
  with remote and offline paths, and the order history under
  `orders_<user id>`, written only for a user whose id is truthy;
- the book details page: availability, the "Add to Cart" handler and stock
  badges; the home page's cart-aware availability, and the book card;
- the navigation bars' cart badge, the menu and logout; the auth context;
  the login and sign-up pages with their form validation and email pattern;
  the profile page's order statistics;
- the image source helper: URL, raw base64, or a byte array turned into a
  JPEG data URL by `btoa` (base64 as in section 4 of RFC 4648);
- the in-browser mock service: login, sign-up, search, add to cart, place
  order, stock update, add book;
- the back end's `CartService` and `OrderService` over a `Db` class holding
  the book table, the cart-row table, the saved orders and a log of
  repository calls.

The browser is one `Storage.Browser` object. Its fields are:

- the cart and order-history keys of `localStorage`;
- the `user` and `userRole` entries;
- the `sessionStorage` guest id;
- the auth context's in-memory user;
- a `trace` of writes, removals and `cartUpdated` broadcasts, in order.

Stored JSON is abstracted by whether it parses and what it holds:
`Stored<T>` is `Blank`, `Garbled`, `NonArray` or `Array(elems)`. JavaScript
numbers read from stored records are `Num` (`Missing`, `Finite(n)` or `NaN`).
The two idioms the pages rely on are modelled separately:

- `x || d` is `Values.OrDefault`;
- `Number(x ?? 0)` is `Values.FiniteOr0`.

The imperative parts are classes whose methods state their whole new state
against functions of the old state:

- the cart page is `CartPage.CartPage`;
- the mock service's catalogue and accounts are `MockApi.MockStore`;
- the back-end tables are `Database.Db`.

The pure parts are functions with lemmas: the filter, the availability
arithmetic, validation and base64.

Where the code departs from what its comments and messages suggest, the model follows the code:

- The search box matches the lowercased search text *untrimmed*. Only the
  emptiness test trims it, so `" java"` does not find "Java"
  (`SearchFilter.UntrimmedSearchText`).
- The navbar's logout calls `setUser(null)`, and `setUser` is the context's
  `login`. This writes the JSON text `null` back under `user` after `logout`
  removed it (`Navbar.HandleLogout`).
- The book details page writes to `cart_guest` when no guest id exists yet.
  The cart page would instead create a fresh guest id
  (`BookDetails.ViewerKeyVersusCartOwner`).
- The buyer navbar reads `cart_0` for a user with id 0. The main navbar
  treats id 0 as "no user" and falls back to the guest id
  (`BuyerNavbar.BarsDisagreeOnIdZero`).
- Within a single tab, the "No more stock available" alert on the details
  page is reachable only for book id 0. For any other id, the availability
  guard already refuses (`BookDetails.StockLimitOnlyForIdZero`). The page
  tests the availability it computed at its last render; a cart written by
  another tab since then can leave that figure stale, and the model does not
  capture that (see "Left out").
- The base stock on the details page is not clamped at zero. Only the
  available figure is clamped.
- The mock branches in `services/api.jsx` are switched off by a constant
  (`USE_MOCK_DATA = false`), so the pages never reach them. They are
  modelled as the mock service's own behaviour (`MockApi`), not as the
  pages' offline fallback. The pages' fallbacks are their own catch
  branches, such as the local order the cart page builds when the remote
  call fails (`CartPage.CartPage.HandleCheckout`).

## Model

| member | source | states |
|---|---|---|
| Values.OrDefault | frontend/FH_book/src/pages/Cart.jsx:125-126 | `x \|\| d` on a stored number: the number when it is finite and non-zero, otherwise the default |
| Values.FiniteOr0 | frontend/FH_book/src/pages/BookDetails.jsx:45-48 | `Number(x ?? 0)` with a non-finite result replaced by 0: a missing or NaN value reads as 0, a finite one as itself |
| Values.TemplateId | frontend/FH_book/src/components/BuyerNavbar.jsx:16 | the text of `${user.id}`: the decimal id when present, the text "undefined" when absent |
| Values.LineOf | frontend/FH_book/src/pages/BookDetails.jsx:114-122 | a new cart line carries the book's id, title, price and stock with quantity 1 |
| Values.IndexOfId | frontend/FH_book/src/pages/BookDetails.jsx:98 | `findIndex` by `===` on ids: the first matching index, and none exactly when no line matches |
| Storage.ReadStoredArray | frontend/FH_book/src/services/api.jsx:10-19 | a missing, blank, unparsable or non-array entry reads as the empty list; a stored array reads as itself |
| Storage.WriteStoredCart | frontend/FH_book/src/services/api.jsx:21-27 | a failed write leaves storage and trace unchanged; a successful one replaces exactly that key and reading it back gives the list written |
| Storage.WriteStoredOrders | frontend/FH_book/src/services/api.jsx:21-27 | the same for an order-history key |
| Storage.RemoveCart | frontend/FH_book/src/pages/Cart.jsx:73 | the cart key is gone, every other key unchanged, and the cart then reads as empty |
| Storage.Broadcast | frontend/FH_book/src/pages/Cart.jsx:74 | the only effect is one `cartUpdated` event appended to the trace |
| CartUtils.FallbackGuestId | frontend/FH_book/src/utils/cartUtils.js:19-21 | the fallback id starts with `guest_` and is longer than the legacy key, so it never equals it |
| CartUtils.NewGuestId | frontend/FH_book/src/utils/cartUtils.js:9-21 | a new guest id is non-empty, never the legacy `guest` key, and is the UUID whenever one is available |
| CartUtils.MigrationMovesLegacyCart | frontend/FH_book/src/utils/cartUtils.js:29-39 | a non-empty legacy cart moves verbatim to the new id's key, the legacy key disappears, and every other key is untouched |
| CartUtils.GetOrCreateGuestId | frontend/FH_book/src/utils/cartUtils.js:1-42 | an existing non-empty guest id is returned with nothing changed; otherwise a new id is returned, stored unless the write fails, and the legacy cart migrated unless that fails |
| CartUtils.GetCartOwnerId | frontend/FH_book/src/utils/cartUtils.js:44-47 | a user with an id owns the cart under that id with storage untouched; without one the owner is the session guest id when one is readable and non-empty, storage untouched; otherwise a new guest id, stored unless that write fails, with the legacy cart migrated to it unless that fails, as `GetOrCreateGuestId` states; the owner is never empty |
| CartPage.HistoryAfter | frontend/FH_book/src/pages/Cart.jsx:171-176 | the new history is the order followed by the old history; it cannot be built exactly when the stored history is unparsable or not an array |
| CartPage.ViewOf | frontend/FH_book/src/pages/Cart.jsx:219-309 | the shown quantity is `quantity \|\| 0`, the ceiling `stock \|\| 99`, the "available" figure their difference; the plus button is disabled exactly when the quantity reached the ceiling, the minus button exactly when the quantity is at most 1 |
| CartPage.WithoutMembership | frontend/FH_book/src/pages/Cart.jsx:108 | after removal a line is present exactly when it was present and its id is not `===` the removed id |
| CartPage.WithoutProperties | frontend/FH_book/src/pages/Cart.jsx:106-117 | removal keeps the remaining lines in order, is idempotent, and leaves a cart without that id unchanged |
| CartPage.SubsequenceKeepsWellFormed | frontend/FH_book/src/pages/Cart.jsx:108 | dropping lines from a cart with numeric distinct ids and quantities of at least 1 keeps both properties |
| CartPage.RemoveKeepsWellFormed | frontend/FH_book/src/pages/Cart.jsx:106-117 | removing an item keeps a well-formed cart well-formed |
| CartPage.SetQuantityEffect | frontend/FH_book/src/pages/Cart.jsx:93-95 | setting a positive quantity keeps the cart well-formed and its length, changes only the matching line, and gives it exactly the new quantity |
| CartPage.TotalPriceAppend | frontend/FH_book/src/pages/Cart.jsx:125 | the cart total is additive over concatenation of carts |
| CartPage.TotalItemsAppend | frontend/FH_book/src/pages/Cart.jsx:126 | appending a line adds its quantity (1 when falsy) to the item count |
| CartPage.TotalItemsReplace | frontend/FH_book/src/pages/Cart.jsx:126 | replacing one line changes the item count by the difference of the two quantities |
| CartPage.TotalItemsOfWellFormed | frontend/FH_book/src/pages/Cart.jsx:126 | a well-formed cart counts at least one item per line |
| CartPage.LocalOrderMatchesCart | frontend/FH_book/src/pages/Cart.jsx:140-166 | the offline order has one payload line per cart line and its total equals the cart total, and so does the sum of its lines |
| CartPage.CheckoutTotalExample | frontend/FH_book/src/pages/Cart.jsx:125 | two lines of 2 x 200 and 1 x 50 total 450 |
| CartPage.PlusButtonCeiling | frontend/FH_book/src/pages/Cart.jsx:88-91 | when the plus button is enabled, the update's stock check lets the increment through; with stock 0 the button's ceiling is 99, yet the update refuses the increment |
| CartPage.CartPage.constructor | frontend/FH_book/src/pages/Cart.jsx:14-30 | the page starts with an empty cart and a non-empty owner: the user id when present, else the stored guest id, else a fresh one |
| CartPage.CartPage.LoadCart | frontend/FH_book/src/pages/Cart.jsx:33-55 | the page shows exactly what the owner's key holds, and nothing when it is missing, unparsable or not an array |
| CartPage.CartPage.SilentClearCart | frontend/FH_book/src/pages/Cart.jsx:71-76 | cart emptied, the owner's key removed, then one `cartUpdated` broadcast |
| CartPage.CartPage.RemoveItem | frontend/FH_book/src/pages/Cart.jsx:106-117 | declined: nothing changes; confirmed: the cart loses exactly that id's lines, then is saved under the owner's key and broadcast; a save that throws leaves the new list but storage and the trace untouched; well-formedness is kept |
| CartPage.CartPage.ClearCart | frontend/FH_book/src/pages/Cart.jsx:119-123 | declined: nothing changes; confirmed: empty cart, key removed, broadcast |
| CartPage.CartPage.UpdateQuantity | frontend/FH_book/src/pages/Cart.jsx:78-104 | zero or less removes the item after confirmation; an unknown id changes nothing; over the stock ceiling is refused with that ceiling; otherwise only that id's quantity changes, then is saved and broadcast, and a save that throws leaves storage and the trace untouched; well-formedness is kept |
| CartPage.CartPage.HandleCheckout | frontend/FH_book/src/pages/Cart.jsx:128-188 | an empty cart and a missing user are refused first; a placed order is the remote one or the local one built from the cart, is prepended to the history under `orders_<user id>` for a truthy id only, and the cart is cleared; it fails exactly when the stored history cannot take the prepend or its save throws, and then nothing changes |
| BookDetails.ViewerKey | frontend/FH_book/src/pages/BookDetails.jsx:16 | the cart key is the user id, else the stored guest id, else the literal legacy `guest` key; never empty |
| BookDetails.InCartQty | frontend/FH_book/src/pages/BookDetails.jsx:50-67 | the quantity of the first line with this book's id, 0 when the id is 0, the line is missing or the cart is not an array |
| BookDetails.Available | frontend/FH_book/src/pages/BookDetails.jsx:45-69 | availability is never negative, is zero exactly when the cart already holds the base stock, and otherwise is their difference |
| BookDetails.StockView | frontend/FH_book/src/pages/BookDetails.jsx:218-234 | "Only N left" exactly for 1 to 5 available, "Out of stock" exactly for none, and the button disabled exactly when busy or nothing is available |
| BookDetails.CartBefore | frontend/FH_book/src/pages/BookDetails.jsx:85-98 | the stored cart is usable unless it parses to a non-array (where `findIndex` throws), and then it is what a read gives |
| BookDetails.HandleAddToCart | frontend/FH_book/src/pages/BookDetails.jsx:71-145 | busy, refused, at the stock limit and failed leave storage untouched; an add writes the incremented or appended cart under the viewer's key, then the remote call for a logged-in user, then the broadcast |
| BookDetails.AddKeepsWellFormed | frontend/FH_book/src/pages/BookDetails.jsx:98-122 | adding keeps the cart well-formed and adds exactly one item: the existing line's quantity grows by one, or the new line is appended at the end |
| BookDetails.IndexOfIdIgnoresQuantity | frontend/FH_book/src/pages/BookDetails.jsx:112 | changing a line's quantity does not move the first line with a given id |
| BookDetails.AddConsumesOneUnit | frontend/FH_book/src/pages/BookDetails.jsx:100-122 | for a book with non-zero id, a successful add lowers availability by exactly one |
| BookDetails.StockLimitOnlyForIdZero | frontend/FH_book/src/pages/BookDetails.jsx:106-109 | for a non-zero id, a cart at the stock limit already shows zero availability, so within one tab the limit alert cannot fire |
| BookDetails.StockLimitReachableForIdZero | frontend/FH_book/src/pages/BookDetails.jsx:52 | book id 0 shows availability while its cart line is at the limit |
| BookDetails.ViewerKeyVersusCartOwner | frontend/FH_book/src/pages/BookDetails.jsx:16 | without user and guest id, the details page uses the legacy key, which differs from any guest id the cart page would create |
| BookDetails.AvailabilityExample | frontend/FH_book/src/pages/BookDetails.jsx:69 | stock 10 with 3 in the cart leaves 7 available |
| BookCard.DisplayStock | frontend/FH_book/src/components/BookCard.jsx:8-10 | the passed availability when it is a number, otherwise the stock, with a missing stock shown as 0; NaN only from a NaN stock |
| BookCard.BadgeOf | frontend/FH_book/src/components/BookCard.jsx:42-52 | "Only N left" exactly for 1 to 5, "Out of stock" exactly for 0 or less, no badge for NaN or more |
| BookCard.StockLabel | frontend/FH_book/src/components/BookCard.jsx:86 | a positive figure N reads "N in stock" with N in decimal; any other figure, NaN included, reads "Out of stock" |
| BookCard.StockLabelCount | frontend/FH_book/src/components/BookCard.jsx:86 | the digits before " in stock" read back as the figure |
| BookCard.CardOf | frontend/FH_book/src/components/BookCard.jsx:6-69 | no card without a book; otherwise the title is the book's or "Untitled Book" when empty, the author the book's or "Unknown Author", badge and label follow the displayed stock, and the category shows exactly when non-empty |
| BookCard.BadgeAgreesWithLabel | frontend/FH_book/src/components/BookCard.jsx:42-86 | for a number, the badge says "Out of stock" exactly when the label does; a low-stock badge never goes with that label; NaN gives no badge but that label |
| Home.CartQuantities | frontend/FH_book/src/pages/Home.jsx:29-53 | the loop maps each finite line id to the quantity of the last line with that id (0 when not a number), and gives the empty map when the cart is unusable |
| Home.CardAvailable | frontend/FH_book/src/pages/Home.jsx:123-126 | a card's availability is the base stock minus the mapped quantity when that is positive, and 0 exactly when the cart holds the base stock or more |
| Home.QuantityMapOfWellFormed | frontend/FH_book/src/pages/Home.jsx:41-47 | for a well-formed cart an id is in the map exactly when some line has it, with that line's quantity |
| Home.HomeAgreesWithDetails | frontend/FH_book/src/pages/Home.jsx:123-126 | for a well-formed cart and a non-zero id, the home card and the details page show the same in-cart quantity and availability |
| Home.RepeatedIdDisagreement | frontend/FH_book/src/pages/Home.jsx:41-47 | with the same id on two lines, home counts the last line and the details page the first |
| Home.CardAvailableBounded | frontend/FH_book/src/pages/Home.jsx:123-126 | a card never shows more than the base stock available |
| Home.CardShowsAvailability | frontend/FH_book/src/pages/Home.jsx:131 | the card displays the computed availability, not the raw stock |
| MockApi.FindBook | frontend/FH_book/src/services/api.jsx:557 | the first catalogue index with that id, none exactly when no book has it |
| MockApi.FindAccount | frontend/FH_book/src/services/api.jsx:77-79 | the first account whose lowercased email matches, none exactly when no account does |
| MockApi.MaxId | frontend/FH_book/src/services/api.jsx:167 | `Math.max(0, ...ids)`: at least every id and at least 0, and either 0 or one of the ids, so `max + 1` is fresh |
| MockApi.Login | frontend/FH_book/src/services/api.jsx:77-105 | success exactly when the trimmed lowercased email finds an account with that password; the returned user carries the account's id, name and email, and the selected role, else the account's, else "buyer"; every failure is "invalid credentials" |
| MockApi.SignupDecision | frontend/FH_book/src/services/api.jsx:142-177 | the checks in order, each error exactly when the earlier ones pass: a blank normalised email, password or trimmed name; a password under 6 characters; a name under 2; an email already taken; the new account has the normalised email, the trimmed name, the role ("buyer" by default) and the next id |
| MockApi.SearchBooksSpec | frontend/FH_book/src/services/api.jsx:490-523 | the results keep catalogue order and contain exactly the books meeting every given criterion |
| MockApi.SearchBooksOrder | frontend/FH_book/src/services/api.jsx:490-523 | the results are an order-preserving selection of the catalogue |
| MockApi.SearchBooksMember | frontend/FH_book/src/services/api.jsx:490-523 | a book is in the results exactly when it is in the catalogue and meets every criterion |
| MockApi.NumberOr0 | frontend/FH_book/src/services/api.jsx:222 | an absent number reads as 0; a finite number or NaN is kept |
| MockApi.MockAdd | frontend/FH_book/src/services/api.jsx:215-250 | the errors in order, each exactly when the earlier checks pass: an unknown book; a finite stock of 0 or less; a line already present whose next quantity exceeds a finite stock, reporting that stock; otherwise success, which gives the same cart as the details page's add |
| MockApi.MockAddRespectsStock | frontend/FH_book/src/services/api.jsx:229-246 | after a successful add the book's line exists with a quantity within the stock, and a well-formed cart stays well-formed |
| MockApi.CompletedOrder | frontend/FH_book/src/services/api.jsx:321-326 | the stored order is "completed", for that user, with the given total and items, dated today when no date was sent |
| MockApi.FindAccountAppend | frontend/FH_book/src/services/api.jsx:177 | a newly appended account is found by its email when no earlier one was |
| MockApi.SignupEmailNormal | frontend/FH_book/src/services/api.jsx:142 | a stored email is already lowercase |
| MockApi.SignupKeepsEmailsDistinct | frontend/FH_book/src/services/api.jsx:161-177 | sign-up keeps account emails pairwise distinct |
| MockApi.SignupIdIsFresh | frontend/FH_book/src/services/api.jsx:167 | the new id exceeds every existing account id |
| MockApi.SignupThenLogin | frontend/FH_book/src/services/api.jsx:77-105 | after sign-up, logging in with the same email and password succeeds for that account |
| MockApi.SignupRejectsKnownEmail | frontend/FH_book/src/services/api.jsx:161-164 | an email already registered, up to case, is refused |
| MockApi.MockStore.Signup | frontend/FH_book/src/services/api.jsx:142-185 | the result is the sign-up decision, the account is appended exactly on success, and distinct emails stay distinct |
| MockApi.MockStore.AddToCart | frontend/FH_book/src/services/api.jsx:215-250 | returns the mock add's result and stores it under the user's key unless it failed or the write failed |
| MockApi.MockStore.PlaceOrder | frontend/FH_book/src/services/api.jsx:317-340 | the completed order is prepended to the user's history (unless the write fails), and the user's cart is removed in either case |
| MockApi.MockStore.UpdateBookStock | frontend/FH_book/src/services/api.jsx:557-569 | unknown book and negative stock are refused with the catalogue unchanged; otherwise only that book's stock changes |
| MockApi.MockStore.AddBookWithImage | frontend/FH_book/src/services/api.jsx:395-451 | a missing stock or price reads as 0; missing title or author, negative stock and non-positive price are refused in that order; success puts the new book first with the next id, the trimmed fields, the coerced stock and price, and the uploaded image or the title placeholder |
| OrderService.FirstShort | backend/FireHorse/src/main/java/com/example/demo/service/OrderService.java:39-47 | the first cart row whose book has less stock than requested, none exactly when every row is covered |
| OrderService.Decremented | backend/FireHorse/src/main/java/com/example/demo/service/OrderService.java:55-58 | stock decrements keep the same books and leave titles and prices alone |
| OrderService.ItemsOf | backend/FireHorse/src/main/java/com/example/demo/service/OrderService.java:60-66 | one order item per cart row |
| OrderService.CheckAndTotal | backend/FireHorse/src/main/java/com/example/demo/service/OrderService.java:36-47 | the check loop reports the first short row, and when there is none the total of price times quantity |
| OrderService.ApplyRows | backend/FireHorse/src/main/java/com/example/demo/service/OrderService.java:55-67 | the mutation loop leaves the decremented stock, builds the order items and saves each book in row order |
| OrderService.PlaceOrder | backend/FireHorse/src/main/java/com/example/demo/service/OrderService.java:29-76 | an empty cart and a short row are refused with nothing changed; otherwise a pending order with the total and items is saved, stock decremented, the user's rows deleted, and the table invariant kept |
| OrderService.CommitOrder | backend/FireHorse/src/main/java/com/example/demo/service/OrderService.java:49-73 | the committing half: order saved, stock decremented, only this user's rows deleted, invariant kept |
| OrderService.SameKeysKeepInvariant | backend/FireHorse/src/main/java/com/example/demo/service/OrderService.java:69-70 | saving books under the same ids keeps every cart row pointing at a book |
| OrderService.DecrementedStock | backend/FireHorse/src/main/java/com/example/demo/service/OrderService.java:57 | with distinct books, each ordered book loses exactly its quantity and every other book is unchanged |
| OrderService.PlacedStockNotNegative | backend/FireHorse/src/main/java/com/example/demo/service/OrderService.java:39-58 | when the check passes, no ordered book's stock goes below zero |
| OrderService.ItemsAddUpToTotal | backend/FireHorse/src/main/java/com/example/demo/service/OrderService.java:44-66 | the saved items' price times quantity add up to the order total |
| OrderService.DuplicateRowsOversell | backend/FireHorse/src/main/java/com/example/demo/service/OrderService.java:39-58 | two rows for the same book would each pass the check and drive the stock to -1, which is why the table's (user, book) uniqueness matters |
| OrderService.TestScenario | backend/FireHorse/src/test/java/com/example/demo/OrderServiceTest.java:46-71 | the unit test's case: stock 15 and one copy leave 14, total 10 |
| CartService.FindPair | backend/FireHorse/src/main/java/com/example/demo/service/CartService.java:26 | the row for this (user, book), none exactly when there is no such row |
| CartService.FindRow | backend/FireHorse/src/main/java/com/example/demo/service/CartService.java:46-47 | the row with this id, none exactly when there is no such row |
| CartService.AddToCart | backend/FireHorse/src/main/java/com/example/demo/service/CartService.java:22-39 | an unknown book is refused with nothing changed; otherwise the pair's row grows by the quantity or a new row with a fresh id is added and saved; the table invariant is kept |
| CartService.UpdateQuantity | backend/FireHorse/src/main/java/com/example/demo/service/CartService.java:45-55 | an unknown row is an error; zero or less deletes the row; otherwise only its quantity changes; the invariant is kept |
| CartService.RemoveFromCart | backend/FireHorse/src/main/java/com/example/demo/service/CartService.java:57-59 | the row with that id is gone, a missing id changes nothing, and the invariant is kept |
| CartService.ClearCart | backend/FireHorse/src/main/java/com/example/demo/service/CartService.java:61-64 | exactly the user's rows are deleted and the invariant is kept |
| CartService.FindPairUnique | backend/FireHorse/src/main/java/com/example/demo/service/CartService.java:26 | with unique pairs, the lookup finds exactly the row of that pair and its quantity |
| CartService.AddToCartEffect | backend/FireHorse/src/main/java/com/example/demo/service/CartService.java:26-38 | adding raises that pair's quantity by the amount, leaves every other pair's quantity, and keeps the invariant and the id bound |
| CartService.WithoutRowSpec | backend/FireHorse/src/main/java/com/example/demo/service/CartService.java:50 | deleting a row by id removes exactly that row and keeps the invariant |
| CartService.UpdateQuantityEffect | backend/FireHorse/src/main/java/com/example/demo/service/CartService.java:49-54 | a positive quantity sets that pair's quantity; zero or less removes the pair and the row; other pairs are unchanged |
| CartService.RemovedPairLeaves | backend/FireHorse/src/main/java/com/example/demo/service/CartService.java:50 | after deleting a row its (user, book) pair is no longer found |
| CartService.OtherPairKept | backend/FireHorse/src/main/java/com/example/demo/service/CartService.java:50 | deleting a row leaves every other pair's quantity as it was |
| CartService.RemoveRowEffect | backend/FireHorse/src/main/java/com/example/demo/service/CartService.java:57-59 | deleting by id keeps the invariant and id bound, and a missing id leaves the rows unchanged |
| CartService.ClearCartEffect | backend/FireHorse/src/main/java/com/example/demo/service/CartService.java:61-64 | after clearing, the user has no rows and every other user's rows are unchanged |
| Database.WithoutUserSpec | backend/FireHorse/src/main/java/com/example/demo/service/CartService.java:61-64 | the rows kept are, in order, exactly those of other users, and the user's rows are exactly theirs |
| Database.UserRowsDistinctBooks | backend/FireHorse/src/main/java/com/example/demo/service/OrderService.java:39 | by the table invariant, a user's cart rows name distinct books |
| Database.UserRowsReferToBooks | backend/FireHorse/src/main/java/com/example/demo/service/OrderService.java:40 | every row of a user's cart names an existing book |
| Database.WithoutUserKeepsInvariant | backend/FireHorse/src/main/java/com/example/demo/service/OrderService.java:73 | deleting a user's rows keeps the table invariant |
| SearchFilter.Initial | frontend/FH_book/src/components/SearchFilter.jsx:4-6 | the form starts with the query from the URL and no category or author |
| SearchFilter.QueryChanged | frontend/FH_book/src/components/SearchFilter.jsx:11-15 | a new URL query replaces the search text and keeps the selects |
| SearchFilter.Insert | frontend/FH_book/src/components/SearchFilter.jsx:8-9 | insertion keeps the list strictly sorted and adds exactly that value |
| SearchFilter.Options | frontend/FH_book/src/components/SearchFilter.jsx:8-9 | `[...new Set(...)].sort()`: strictly sorted and containing exactly the values seen |
| SearchFilter.OptionListsSpec | frontend/FH_book/src/components/SearchFilter.jsx:8-9 | the category and author lists are sorted, duplicate-free, and list exactly the values some book has |
| SearchFilter.SortedUnique | frontend/FH_book/src/components/SearchFilter.jsx:8-9 | two strictly sorted lists with the same members are equal, so the option list is determined by the set |
| SearchFilter.Reset | frontend/FH_book/src/components/SearchFilter.jsx:39-43 | reset clears all three inputs and then every book is shown |
| SearchFilter.FilteredIsOneFilter | frontend/FH_book/src/components/SearchFilter.jsx:17-37 | the three filter stages together equal one filter by the conjunction of the three conditions |
| SearchFilter.FilteredSpec | frontend/FH_book/src/components/SearchFilter.jsx:17-37 | the result keeps list order and holds exactly the books meeting every active condition |
| SearchFilter.StageOrderIrrelevant | frontend/FH_book/src/components/SearchFilter.jsx:28-34 | applying the stages in another order gives the same list |
| SearchFilter.StagesCommute | frontend/FH_book/src/components/SearchFilter.jsx:28-34 | any two stages commute |
| SearchFilter.BlankSearchIgnored | frontend/FH_book/src/components/SearchFilter.jsx:20 | search text made only of whitespace filters nothing |
| SearchFilter.SearchIgnoresCase | frontend/FH_book/src/components/SearchFilter.jsx:20-25 | lowercasing the search text first changes nothing |
| SearchFilter.UntrimmedSearchText | frontend/FH_book/src/components/SearchFilter.jsx:20-21 | `" java"` does not find the title "Java" while `"java"` does |
| SearchFilter.LeadingSpaceMisses | frontend/FH_book/src/components/SearchFilter.jsx:20-21 | with a leading space the search shows nothing for "Java" |
| SearchFilter.LeadingSpaceNoMatch | frontend/FH_book/src/components/SearchFilter.jsx:21-25 | the leading-space text matches neither the title nor the author |
| SearchFilter.PlainTextFinds | frontend/FH_book/src/components/SearchFilter.jsx:20-25 | the plain text finds the book |
| SearchFilter.PlainTextMatches | frontend/FH_book/src/components/SearchFilter.jsx:21-25 | the plain text matches the title |
| SearchFilter.SearchOnly | frontend/FH_book/src/components/SearchFilter.jsx:20-26 | with only a search set, a book shows exactly when its lowercased title or author contains the lowercased text |
| Email.ValidIffPattern | frontend/FH_book/src/pages/Signup.jsx:54-55 | the hand-written validator accepts exactly the strings the regular expression matches: a non-empty run without whitespace or @, an @, such a run, a dot, such a run |
| Email.Examples | frontend/FH_book/src/pages/Signup.jsx:54 | `a@b.co` is accepted; a missing dot, an empty domain part, a space and a second @ are refused |
| Email.FirstAt | frontend/FH_book/src/pages/Signup.jsx:54 | the position of the first @, none exactly when there is none |
| Signup.ValidateForm | frontend/FH_book/src/pages/Signup.jsx:33-61 | no error exactly when every check passes; each message appears exactly when its check is the first to fail, in the page's order |
| Signup.Dashboard | frontend/FH_book/src/pages/Signup.jsx:93-97 | sellers go to the seller dashboard, everyone else to the buyer dashboard |
| Signup.FailureMessage | frontend/FH_book/src/pages/Signup.jsx:82-101 | the message a failed sign-up or login shows: the page's own text for a reply without a user, else the error's message, else the page's fallback; never empty |
| Signup.HandleSignup | frontend/FH_book/src/pages/Signup.jsx:63-105 | an invalid form is reported without a call; a returned user is logged in and redirected by role; otherwise the failure is shown and the stored user is unchanged |
| Signup.EmptyFieldRefused | frontend/FH_book/src/pages/Signup.jsx:34-37 | any empty field gives "All fields are required" |
| Signup.FirstFailureWins | frontend/FH_book/src/pages/Signup.jsx:39-52 | a short name is reported before a mismatched password |
| Signup.AstralNameLength | frontend/FH_book/src/pages/Signup.jsx:39 | one emoji counts as two UTF-16 units, so it passes the two-character name check |
| Signup.AcceptedIffAllChecks | frontend/FH_book/src/pages/Signup.jsx:33-61 | the form is accepted exactly when all fields are filled, the name and password are long enough, the passwords match and the email is valid |
| Login.PreCheck | frontend/FH_book/src/pages/Login.jsx:29-39 | missing fields are reported first, then an invalid email; no error exactly when both pass |
| Login.RoleNote | frontend/FH_book/src/pages/Login.jsx:55-59 | a note appears exactly when a role was selected and the account's role differs |
| Login.HandleLogin | frontend/FH_book/src/pages/Login.jsx:25-81 | rejected input makes no call; a returned user is stored and redirected by the account's role; otherwise the stored user is unchanged |
| Login.RedirectFollowsAccount | frontend/FH_book/src/pages/Login.jsx:66-73 | a seller who picked "buyer" still lands on the seller dashboard, with the role note |
| AuthContext.UserFromEntry | frontend/FH_book/src/context/AuthContext.jsx:7-18 | a user is restored exactly when the entry parses to a record |
| AuthContext.EntryOf | frontend/FH_book/src/context/AuthContext.jsx:23 | storing a user and reading it back gives the same user; no user is stored as JSON `null` |
| AuthContext.Start | frontend/FH_book/src/context/AuthContext.jsx:7-18 | the restored user is what the entry holds; a garbled entry is removed and any other entry is kept |
| AuthContext.Login | frontend/FH_book/src/context/AuthContext.jsx:22-25 | the entry and the in-memory user both become the given user |
| AuthContext.Logout | frontend/FH_book/src/context/AuthContext.jsx:27-32 | the user entry and the guest id are removed and no user remains |
| AuthContext.RolesExclusive | frontend/FH_book/src/context/AuthContext.jsx:34-35 | nobody is both buyer and seller, and without a user neither |
| AuthContext.StartSettles | frontend/FH_book/src/context/AuthContext.jsx:7-18 | after start the entry is never garbled and restores the same user |
| Navbar.CountOwner | frontend/FH_book/src/components/Navbar.jsx:42-46 | the badge counts the user's cart, else the guest's, else nothing |
| Navbar.CartCount | frontend/FH_book/src/components/Navbar.jsx:51-61 | an unusable cart counts 0 |
| Navbar.Count | frontend/FH_book/src/components/Navbar.jsx:41-62 | the count is 0 without an owner and otherwise that owner's cart count |
| Navbar.BadgeText | frontend/FH_book/src/components/Navbar.jsx:128-130 | no badge for 0 or less, "99+" exactly above 99, the number otherwise |
| Navbar.NavItems | frontend/FH_book/src/components/Navbar.jsx:81-101 | Home always comes first; Cart and Profile exactly for a user; Add Book and Dashboard exactly for a seller user; 1, 3 or 5 items |
| Navbar.HandleLogout | frontend/FH_book/src/components/Navbar.jsx:69-75 | after logout the role entry is gone, no user is in memory, and the user entry holds JSON `null` |
| Navbar.CountAgreesWithCartPage | frontend/FH_book/src/components/Navbar.jsx:54 | the badge count equals the cart page's item total for the same entry |
| Navbar.CountOfWellFormed | frontend/FH_book/src/components/Navbar.jsx:54 | a well-formed cart counts at least its line count, and 0 exactly when empty |
| Navbar.LogoutLeavesNoUser | frontend/FH_book/src/components/Navbar.jsx:69-78 | the `null` entry restores no user, and the menu shrinks to Home |
| Navbar.StaleRoleWithoutUser | frontend/FH_book/src/components/Navbar.jsx:78-97 | a leftover seller role entry makes `isSeller` true without a user, yet the menu still shows only Home |
| BuyerNavbar.Count | frontend/FH_book/src/components/BuyerNavbar.jsx:14-29 | without a user the count is kept; with one it counts the cart under `${user.id}` |
| BuyerNavbar.BadgeText | frontend/FH_book/src/components/BuyerNavbar.jsx:73-75 | the same badge as the main navbar |
| BuyerNavbar.BarsAgree | frontend/FH_book/src/components/BuyerNavbar.jsx:16 | for a non-zero user id both bars show the same count |
| BuyerNavbar.BarsDisagreeOnIdZero | frontend/FH_book/src/components/BuyerNavbar.jsx:15-16 | for user id 0 the buyer bar counts `cart_0` and the main bar counts nothing |
| Profile.LoadedOrders | frontend/FH_book/src/pages/Profile.jsx:22-56 | a non-empty remote list is used, otherwise the stored history under `orders_${user.id}` |
| Profile.StatsOf | frontend/FH_book/src/pages/Profile.jsx:62-75 | order count, amount spent and items bought over the list; the average times the count equals the amount, 0 for no orders |
| Profile.PlacedOrderStats | frontend/FH_book/src/pages/Profile.jsx:63-67 | an offline checkout adds one order, the cart total to the amount spent and the cart's item count to the items |
| Profile.PayloadCount | frontend/FH_book/src/pages/Profile.jsx:65-67 | counting the order payload's quantities gives the cart page's item total |
| Profile.LineCountOfPositive | frontend/FH_book/src/pages/Profile.jsx:66 | with no negative quantity, an order counts at least one item per line |
| Profile.FallbackToStorage | frontend/FH_book/src/pages/Profile.jsx:26-50 | a failed and an empty remote load both fall back to storage, which shows nothing when the key is missing |
| ImageUtils.Placeholder | frontend/FH_book/src/utils/imageUtils.js:48-50 | the placeholder prefix followed by the URL-encoded first 20 characters of the title, whose percent-decoding is their UTF-8 bytes; the fixed "Book" placeholder when the title is empty |
| ImageUtils.ToUint8 | frontend/FH_book/src/utils/imageUtils.js:33 | `Uint8Array` conversion gives a byte and keeps a byte as is |
| ImageUtils.Latin1 | frontend/FH_book/src/utils/imageUtils.js:34-37 | one character per array element, whose code is the element as a byte |
| ImageUtils.Codes | frontend/FH_book/src/utils/imageUtils.js:38 | the character codes of Latin-1 text are bytes, one per character |
| ImageUtils.CodesOfBytes | frontend/FH_book/src/utils/imageUtils.js:33-38 | building the binary string from bytes and reading its codes back gives the bytes |
| ImageUtils.ImageSrc | frontend/FH_book/src/utils/imageUtils.js:11-51 | no book gives the default placeholder; `http` and `data:` texts and texts up to 100 UTF-16 units are used as is, and longer ones get the JPEG base64 prefix; byte arrays become a JPEG data URL of their base64; an empty text or anything else gives the title placeholder |
| ImageUtils.GetImageSrc | frontend/FH_book/src/utils/imageUtils.js:11-51 | the looping implementation returns exactly the specified source |
| ImageUtils.ByteArrayRoundTrip | frontend/FH_book/src/utils/imageUtils.js:31-39 | the data URL of a byte array starts with the JPEG prefix and its payload decodes back to the same bytes |
| ImageUtils.DataUrlOfBytes | frontend/FH_book/src/utils/imageUtils.js:31-39 | the data URL's payload after the prefix is the base64 encoding of the bytes |
| ImageUtils.SourceKinds | frontend/FH_book/src/utils/imageUtils.js:11-51 | every source is a JPEG data URL, a placeholder, or the book's own text |
| ImageUtils.EmptyImageIsPlaceholder | frontend/FH_book/src/utils/imageUtils.js:16 | an empty image text is falsy and gives the title placeholder |
| ImageUtils.LongTitleCut | frontend/FH_book/src/utils/imageUtils.js:49 | the placeholder carries only the first 20 characters of a long title, URI-encoded |
| Base64.EncodeGroup | frontend/FH_book/src/utils/imageUtils.js:38 | a group of 1 to 3 bytes gives 4 alphabet characters, with padding exactly where bytes are missing |
| Base64.Encode | frontend/FH_book/src/utils/imageUtils.js:38 | `btoa` output is 4 characters per started 3 bytes, all from the alphabet |
| Base64.GroupRoundTrip | frontend/FH_book/src/utils/imageUtils.js:38 | decoding an encoded group gives the group back |
| Base64.RoundTrip | frontend/FH_book/src/utils/imageUtils.js:38 | decoding the encoding of any byte list gives the list back |
| Base64.Rfc4648Example | frontend/FH_book/src/utils/imageUtils.js:38 | "foob" encodes as "Zm9vYg==", the test vector of section 10 of RFC 4648 |
| Base64.Sextet | frontend/FH_book/src/utils/imageUtils.js:38 | each 6-bit value maps to the alphabet character that decodes back to it |
| Text.Utf16Length | frontend/FH_book/src/pages/Signup.jsx:39 | `.length` counts one or two UTF-16 units per character: one character counts 2 exactly when it lies beyond U+FFFF, and a text in the basic plane counts its characters |
| Text.Utf16LengthAppend | frontend/FH_book/src/pages/Signup.jsx:39 | the length of a concatenation is the sum of the lengths |
| Text.Trim | frontend/FH_book/src/components/SearchFilter.jsx:20 | `trim()` keeps a contiguous piece of the text with no whitespace at either end, and everything it drops before and after that piece is whitespace |
| Text.TrimEmptyIffBlank | frontend/FH_book/src/components/SearchFilter.jsx:20 | the trimmed text is empty exactly when the text is all whitespace |
| Text.ToLower | frontend/FH_book/src/components/SearchFilter.jsx:21 | `toLowerCase()` keeps the length and lowercases each character on its own |
| Text.ToLowerIdempotent | frontend/FH_book/src/components/SearchFilter.jsx:21 | lowercasing twice is lowercasing once |
| Text.EncodeURIComponent | frontend/FH_book/src/utils/imageUtils.js:49 | the result is at least as long as the text, holds only URI-safe characters, and one character encodes as `Text.EncodeChar` says |
| Text.EncodeChar | frontend/FH_book/src/utils/imageUtils.js:49 | an unreserved character is kept; any other becomes `%XY` triples of its UTF-8 bytes |
| Text.EncodeURIComponentAppend | frontend/FH_book/src/utils/imageUtils.js:49 | encoding works character by character: the encoding of a concatenation is the concatenation of the encodings |
| Text.DecodeEncode | frontend/FH_book/src/utils/imageUtils.js:49 | percent-decoding the encoded text gives back exactly the UTF-8 bytes of the original |
| Text.NatToStringValue | frontend/FH_book/src/components/BookCard.jsx:86 | the decimal text of a number reads back as that number |

## Left out

- Network calls, React rendering, `navigate`, `alert`/`confirm` dialogs and
  the `cartUpdated` listeners are left out. Each remote reply and each dialog
  answer is a parameter. The trace keeps the order of writes and broadcasts.
- Polling intervals, the sign-up page's two-second redirect delay (modelled
  as immediate), the mock service's `delay` and the search debounce are left
  out.
- `Date.now`, `new Date()`, `crypto.randomUUID` and `Math.random` are
  parameters. The back end's `LocalDate.now()` is the `today` parameter.
- Storage failures (a full `localStorage`) are boolean parameters. A failed
  write leaves storage as it was. What the caller does next follows the
  source: the cart page's remove and update handlers have already set the
  list, so it changes while storage does not and no event is broadcast; a
  failed history write at checkout lands in the handler's catch, leaving the
  cart in place.
- CartPage.CartPage.UpdateQuantity: a stock snapshot stored as `NaN` comes
  back from JSON as `null`, and `newQuantity > null` refuses every positive
  quantity. The model's `Num` has no `null`; a `NaN` stock is never over
  the ceiling here, so the change is applied.
- BookDetails.HandleAddToCart: the availability test reads the stored cart at
  the click. The page tests the figure computed at its last render, which a
  cart written by another tab can leave stale; then the "No more stock" alert
  is reachable for any book id.
- `handleImageError` in `utils/imageUtils.js` changes a DOM element and is
  not modelled.
- Jackson's serialisation of `byte[]` images, the controllers and the JPA
  mapping are not modelled. The repositories are the `Db` fields plus a log
  of calls. `deleteById` on a missing id is modelled as doing nothing, as in
  Spring Data 3.
- Back-end prices and totals are `BigDecimal` in the source. The model uses
  integers in minor units.
- The back end's Java `int` overflow in quantity sums, stock decrements and
  ids is not modelled. The model's integers are unbounded.
- Transactions and concurrency: `@Transactional` rollback is modelled by
  `OrderService.PlaceOrder` changing nothing on an error. Concurrent requests
  are not modelled.
- JavaScript numbers are `Missing`, finite integers or `NaN`. `Infinity`,
  fractions and coercion of non-numeric strings are not modelled.
- Text.ToLower: only ASCII letters are lowercased, while `toLowerCase()` maps
  all of Unicode.
- SearchFilter.Options: the sort compares code points, where JavaScript's
  default sort compares UTF-16 units. Outside the basic plane the two orders
  can differ.
- ImageUtils.LongTitleCut: `substring(0, 20)` counts UTF-16 units, while the
  model counts characters. A title with a character outside the basic plane
  among its first 20 units is cut at a different point, and a cut through a
  surrogate pair leaves a lone surrogate on which `encodeURIComponent` throws;
  neither is modelled. The same holds for ImageUtils.Placeholder.
- MockApi.MockStore.AddBookWithImage: the title placeholder is cut after 20
  characters, not 20 UTF-16 units, as for ImageUtils.LongTitleCut; the
  `encodeURIComponent` exception on a lone surrogate left by the cut is not
  modelled: there the source's call rejects with a `URIError` and adds no
  book, while the model adds it.
- Values.IndexOfId: lines are found by `item.id === book.id`, while
  BookDetails.InCartQty counts them by `Number(it?.id) === Number(book.id)`.
  Ids are modelled as numbers, so the two comparisons coincide. In the source
  a stored line whose id is the string "5" is counted against book 5 but not
  found by `findIndex`; BookDetails.HandleAddToCart then appends a second
  line with the same numeric id, and the distinct-id cart that
  CartPage.WellFormed describes no longer holds. String ids are not modelled.
- MockApi.SignupDecision: the mock service's own length checks are modelled
  on characters, not UTF-16 units. The sign-up form's checks do use UTF-16
  units (`Text.Utf16Length`).
- ImageUtils.ImageSrc: the `catch` fallback after `btoa` is not modelled. The
  binary string is built from bytes, so it is Latin-1 and `btoa` cannot throw.
  Array elements are modelled as integers; other element values are not
  modelled.
- The seller pages (dashboard, add-book form), the order confirmation page,
  the role-specific login pages and `BookService` are not part of this model.
