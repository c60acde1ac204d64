# Telegram shop bot: verified model of its core rules

The bot sells digital stock items. A user picks a category from a paginated menu, then a
product, sets a quantity, and pays either from an account balance or with a dynamic QRIS
code. A deposit flow tops the balance up through QRIS. An admin adds products with
`/addproduk category,code,name,price,detail[,code,name,price,detail…]`.

This project models the rules that decide what each of those steps does, and proves
properties about them. It covers:

- the callback-data codec of the buttons (`qty_plus_{id}_{qty}` and its siblings), and
  the order in which the action handlers are tried;
- quantity stepping;
- the page-of-five category menu with its two-per-row layout and Prev/Next navigation,
  and the product listing of a category;
- `findProduct`;
- the per-user text-input state (deposit amount, typed quantity);
- the construction of deposit and QRIS purchase requests, and the pending records they
  register;
- the balance-paid purchase;
- the QR amount self-check;
- the `/addproduk` parser;
- the product table.

JavaScript built-ins the rules depend on are modelled in `JsText`:

- `parseInt` (section 19.2.5 of ECMA-262). No radix is given, leading white space is
  skipped, there is an optional sign and a `0x` prefix, and the leading digits are read.
- `isNaN` on a string (sections 19.2.3 and 7.1.4.1.1). A string is NaN unless it is a
  StringNumericLiteral. The empty and all-blank strings count as numeric.
- `trim`, `split` on one character, `indexOf`, `lastIndexOf`, Annex B `substr` and
  `toLowerCase`.

Files and modules:

| file | module | models |
|---|---|---|
| wrappers.dfy | Wrappers | `Option`, `Max`, `Min` |
| js_text.dfy | JsText | the string and number built-ins above |
| callback_data.dfy | CallbackData | button data, action dispatch, quantity stepping, product screen keyboard |
| products.dfy | Products | database/products.js as an in-memory table (`ProductDb`) |
| catalog.dfy | Catalog | categories and `findProduct` |
| category_menu.dfy | CategoryMenu | `buildCategoryButtons`, the inline pagination of `back_home` and `page_`, product rows |
| add_product.dfy | AddProduct | handlers/admin/addproduct.js |
| stores.dfy | Stores | the stock and balance stores, by the calls made on them |
| balance_purchase.dfy | BalancePurchase | `pay_saldo` |
| qris.dfy | Qris | `generateDynamicQRIS`'s checks, pending records, the deposit and `pay_qris` requests |
| text_input.dfy | TextInput | `depositState`, `editQtyState` and the text handler |

State the source mutates in place is a Dafny `class`:

- the product table, `Products.ProductDb`;
- the stock and balance stores, `Stores.Store`;
- the pending-payment registry, `Qris.PendingPayments`;
- the two per-user dictionaries, `TextInput.Sessions`.

Each method on these classes is proved against a pure function of the old state. The loops
of the source (`i += 2` for button rows, `i += 4` for product groups, the category loop of
`findProduct`) are `while`/`for` loops with invariants, proved equal to their reference
functions.

Network calls and the random and clock-based values are inputs to the model:

- the QR generator's answer (`qrCode`, and `decode` for the base64 decoding of its data
  part);
- whether `deleteMessage` and `replyWithPhoto` succeeded;
- the unique code, a value in [100, 999];
- the payment and product ids.

## Model

| member | source | states |
|---|---|---|
| CallbackData.MatchIdQtyOf | index.js:231 | The greedy `^P(.+)_(\d+)$` applied to `P + id + "_" + digits` captures exactly `id` and the digits. This holds even when `id` contains underscores, provided it has no line terminator. |
| CallbackData.MatchIdQty | index.js:231 | A match splits the data into the prefix, an id a `(.+)` can capture, `_` and a digit string, and joining them gives the data back. |
| CallbackData.EncodeShape | index.js:160-161 | A button's data starts with its prefix, is longer than it, and the greedy pattern splits it back into the id and the decimal quantity. |
| CallbackData.RouteEncode | index.js:160-161 | Every product-screen button, dispatched through the action handlers in registration order, reaches its own handler with the id and quantity it was built with. |
| CallbackData.CategoryBackUnreachable | index.js:574 | No callback ever reaches the `cat_back_` handler, because `^cat_(.+)$` is registered first and takes it. |
| CallbackData.RoutePage | index.js:684 | `page_{n}` reaches the page handler with page n. |
| CallbackData.RouteCategory | index.js:191 | `cat_{id}` reaches the category handler with the id text. |
| CallbackData.QtyDown | index.js:250-254 | `qty_min` re-renders with a quantity of at least 1: one less for a quantity of 2 or more, otherwise 1. |
| CallbackData.QtyUp | index.js:245-248 | `qty_plus` re-renders with a larger quantity. |
| CallbackData.QtyStepsInverse | index.js:245-254 | Stepping down undoes stepping up. Above 1, stepping up undoes stepping down. |
| CallbackData.RouteBackHome | index.js:614 | `back_home` reaches the home handler: no pattern registered before it matches. |
| CallbackData.ProductKeyboard | index.js:159-163 | The product screen's keyboard has three rows, of 3, 2 and 1 buttons. |
| CallbackData.ProductKeyboardPresses | index.js:159-163 | ➖ re-renders with `QtyDown(qty)` and ➕ with qty+1. ✏️, Saldo and QRIS reach their handlers with the same id and quantity. Kembali goes home. |
| JsText.ParseIntOfDigitPrefix | index.js:564 | parseInt of a text that starts with decimal digits is their value, whatever follows. This is how typed amounts and quantities are read. |
| JsText.ParseIntOfNatToString | index.js:233 | parseInt reads back every decimal quantity written into button data. |
| JsText.NaNWithoutLeadingDigit | index.js:495-497 | parseInt gives NaN for a text that starts with neither white space, a sign nor a digit. |
| JsText.DigitsAreNumeric | handlers/admin/addproduct.js:33 | Every non-empty string of decimal digits passes `!isNaN`. |
| JsText.NumericWhenUnpadded | handlers/admin/addproduct.js:33 | An unsigned decimal literal without white space at its ends passes `!isNaN`. |
| JsText.Trim | handlers/admin/addproduct.js:11 | `trim` gives no longer a text, with no white space at either end. |
| JsText.TrimInfix | handlers/admin/addproduct.js:11 | The trimmed text is the infix of the input between a blank prefix and a blank suffix: `trim` removes only white space at the ends. |
| JsText.Split | handlers/admin/addproduct.js:11 | `split(',')` gives at least one piece. No piece contains a comma, and joining the pieces with commas gives back the input. |
| JsText.SplitHasOnePart | index.js:73 | Splitting gives a single piece exactly when the separator does not occur. |
| JsText.TrimEmptyIffBlank | database/products.js:16 | A string trims to empty exactly when it is all white space. |
| JsText.BlankIsNumericButNotAnInteger | handlers/admin/addproduct.js:33 | A blank price passes `!isNaN` yet parseInt gives NaN for it. |
| CategoryMenu.Slice | index.js:116 | `slice(start, end)` has length `min(end, n) - start` when `start` is inside both bounds, and 0 otherwise. Its k-th element is element `start + k`. |
| CategoryMenu.TotalPagesIsCeiling | index.js:134 | `Math.ceil(n / per)` is the least number of pages of `per` items that hold n items. It is 0 only for n = 0. |
| CategoryMenu.PairedRows | index.js:121-129 | The two-per-row layout has `ceil(n / 2)` rows. |
| CategoryMenu.PairedRowsShape | index.js:121-129 | Every row holds two buttons except possibly the last, which holds one or two. |
| CategoryMenu.FlattenPairedRows | index.js:121-129 | Read row by row, the layout is the buttons in their original order. |
| CategoryMenu.CategoryRows | index.js:121-129 | The `i += 2` loop builds exactly the two-per-row layout of the page's buttons, labelled with their global positions. |
| CategoryMenu.BuildCategoryButtons | index.js:113-150 | `buildCategoryButtons` returns the rows of the page that starts at category `page*max`, followed by the navigation rows `NavRows`. |
| CategoryMenu.NavRows | index.js:133-147 | There is at most one navigation row. It is present exactly when there are more than `max` categories, and it is `NavRow` of the page with `ceil(n/max)` pages. |
| CategoryMenu.CategoryKeyboardLayout | index.js:113-147 | For the page that starts at category `start`, the first `ceil(m/2)` rows hold 1 or 2 buttons, where m is the page's number of categories (at most `max`). Read in order, they are `categories.slice(start, start+max)` labelled from `start+1`. The navigation rows follow, and nothing else. |
| CategoryMenu.NavRow | index.js:133-146 | The navigation row has between one and three buttons. |
| CategoryMenu.NavRowHasIndicatorInMiddle | index.js:136-144 | Prev appears iff page > 0, and Next iff page < totalPages - 1. The page indicator always sits between them. |
| CategoryMenu.NavigationStaysInRange | index.js:136-143 | Prev leads to page - 1 and Next to page + 1. The indicator reaches the dummy handler. From an existing page, navigation only reaches existing pages. |
| CategoryMenu.RoutePageInfo | index.js:746-748 | The indicator's `page_info` data reaches the page-info handler; no earlier pattern matches it. |
| CategoryMenu.CategoryPage | index.js:114-126 | Category i is shown on page `i / max`, which exists, labelled i+1. |
| CategoryMenu.CategoryOnOnePage | index.js:114-116 | No other page shows it. |
| CategoryMenu.PageKeyboard | index.js:684-743 | No keyboard exactly when there are no categories. Otherwise the rows of the page that starts at category `page*5`, then the Prev/Next row when it has a button. |
| CategoryMenu.HomeKeyboard | index.js:614-681 | No keyboard exactly when there are no categories. Otherwise page 0's rows, then a row holding only Next when there are more than five categories. |
| CategoryMenu.PageButtons | index.js:684-743 | The `page_` handler's keyboard: the page's rows plus a Prev/Next row if that row is non-empty. There is no keyboard when there are no categories. |
| CategoryMenu.HomeButtons | index.js:614-681 | The `back_home` keyboard: page 0's rows, plus the Next row when there are more than five categories. |
| CategoryMenu.HomeIsFirstPage | index.js:645-674 | The home keyboard is exactly page 0 of the `page_` handler. |
| CategoryMenu.ProductListButtons | index.js:210-219 | A category's product rows, two per row and numbered from 1, then the Kembali row. |
| CategoryMenu.ProductListKeyboard | index.js:210-223 | A listing of n products has `ceil(n/2)` product rows and then a last row holding only Kembali; with no products it is Kembali alone. |
| CategoryMenu.OpenCategoryView | index.js:191-229 | The `cat_` handler finds no category exactly when parseInt of the text is NaN or no category has that id. Otherwise the category is the first one with that id, as `find` returns. If one of its products has no price, writing the price throws and nothing is listed. Otherwise the category is listed with exactly its products, and the keyboard is their numbered buttons two to a row and then Kembali (Kembali alone for no products). |
| CategoryMenu.ListingKeyboardLayout | index.js:210-219 | The listing keyboard has one button per listed product, in listing order, labelled k+1 with data `prod_<id>`, followed by a last row holding only Kembali. |
| CategoryMenu.ListingButtonOpensProduct | index.js:191-229 | Pressing the k-th product button of an opened category shows the k-th listed product's screen with quantity 1, for ids with no underscore. |
| CategoryMenu.PressCategoryButton | index.js:124 | A category's menu button opens that category's view, when category ids are unique. |
| CategoryMenu.OpenUniqueCategory | index.js:191-229 | Text that parseInt reads as the id of a category whose id is unique opens that category's view: its listing, or the failure a product without a price causes. |
| CategoryMenu.PressProductButton | index.js:213 | A product's listing button opens its screen with quantity 1. This holds for ids with no underscore. |
| Catalog.CategoryById | index.js:194 | A found category is one of the categories and has the id. None exactly when no category has it. |
| Catalog.CategoryByIdIsFirst | index.js:194 | The category found is the first one in stored order with the id. |
| Catalog.ProductById | index.js:107 | A found product is in the list and has the id. None exactly when none has it. |
| Catalog.ProductByIdIsFirst | index.js:107 | The product found is the first one in the list with the id. |
| Catalog.ListingFindsFirst | index.js:106-107 | Searching a category's listing finds the first record of the table, in stored order, that belongs to the category and has the id. |
| Catalog.FindIn | index.js:103-111 | A found product has the id and is listed in one of the categories. None exactly when no listed product has the id. |
| Catalog.FindInIsFirst | index.js:103-111 | When no category before the i-th lists a product with the id, the result is the first product of the i-th category with it. So categories are searched in order, and each one in stored order. |
| Catalog.FindProduct | index.js:103-111 | The category loop with early return computes `FindIn`. |
| Catalog.FindUniqueProduct | index.js:103-111 | With unique ids, a product is found exactly when some category lists it. |
| Products.LineTotal | index.js:769 | `price * qty` is 0 for a null price. For a non-negative price it is non-negative, and at least the unit price for a quantity of 1 or more. |
| Products.ProductsByCategory | database/products.js:45-48 | The listing holds exactly the records whose category matches, ignoring letter case. |
| Products.ProductsByCategoryAppend | database/products.js:40-47 | Appending a record extends the listing of its own category by it and changes no other listing. So listings keep stored order. |
| Products.ProductByCode | database/products.js:50-53 | A record with a non-empty code equal up to case. A record without a code is never returned. None exactly when there is no match. |
| Products.ProductByCodeIsFirst | database/products.js:50-53 | The record found is the first one in stored order whose code matches. |
| Products.ReadProducts | database/products.js:12-23 | Reading yields an empty table for unreadable, empty, blank or unparseable content, and the parsed table otherwise. |
| Products.ProductDb.Load | database/products.js:12-23 | The table loaded from the file is what `readDB` yields for its content and parse outcome. |
| Products.ProductDb.AddProduct | database/products.js:29-43 | One record is appended at the end, the earlier records are unchanged, the price is parseInt of its text, and the record is returned. |
| Products.ProductDb.AllProducts | database/products.js:55-58 | The whole stored list. |
| AddProduct.Parts | handlers/admin/addproduct.js:11 | One trimmed part per comma-separated piece. |
| AddProduct.GroupsClosedForm | handlers/admin/addproduct.js:26-31 | Parts from index 1 form `(n-1)/4` groups, the g-th being parts `1+4g .. 4+4g`. A trailing incomplete group is dropped. |
| AddProduct.KeptMembers | handlers/admin/addproduct.js:33-36 | A group is added exactly when its price passes the guard. Skipped groups do not stop later ones. |
| AddProduct.Plan | handlers/admin/addproduct.js:5-44 | See the list after this table. |
| AddProduct.AddProductCommand | handlers/admin/addproduct.js:4-44 | The handler's reply is the plan's. The table grows by exactly the plan's records, in input order, when products were added, and is unchanged otherwise. |
| AddProduct.AddGroups | handlers/admin/addproduct.js:25-38 | The `i += 4` loop adds exactly the kept groups, in order, and collects exactly their names. |
| AddProduct.AddGroupAt | handlers/admin/addproduct.js:27-37 | One turn of the loop keeps the loop's invariant: the names collected and the records appended are those of the kept groups so far. |
| AddProduct.NotNaNAdmitsUnparsablePrices | handlers/admin/addproduct.js:33 | `!isNaN` passes `""`, `Infinity` and `.5`, for which parseInt is NaN. |
| AddProduct.InfinityPassesNotNaN | handlers/admin/addproduct.js:33 | `Infinity` is a StringNumericLiteral, so `!isNaN("Infinity")` holds. |
| AddProduct.HalfPassesNotNaN | handlers/admin/addproduct.js:33 | `.5` is a StringNumericLiteral, so `!isNaN(".5")` holds. |
| AddProduct.TypedCommandParts | handlers/admin/addproduct.js:5-11 | The parts of `/addproduk f0,f1,…` are the fields typed, when no field holds a comma or white space at its ends and the first and last are not empty. |
| AddProduct.OneGroupAdded | handlers/admin/addproduct.js:26-44 | Five parts with a known category and an accepted price add exactly that one group and report its name. |
| AddProduct.EmptyPriceStoredAsNaN | handlers/admin/addproduct.js:33-34 | The command `/addproduk category,code,name,,detail` for a known category is answered as a success adding that group, and the record it stores has a NaN price. |
| AddProduct.CorrectedGuardStoresPrices | handlers/admin/addproduct.js:33-34 | With a guard that accepts only prices parseInt can read, every added record has a price. |
| AddProduct.CorrectedGuardIsNarrower | handlers/admin/addproduct.js:33 | Every price written in digits passes both guards. Its first clause, that the corrected guard implies `!isNaN`, holds by the guard's definition. |
| Stores.StockOf | index.js:757 | The stock count is the number of items for a known code and 0 for an unknown one. |
| Stores.Available | index.js:757 | A product without a code, or whose code has no stock list, has 0 available. Otherwise it has as many as its list holds. |
| Stores.Store.StockCount | index.js:757 | `getStockCount(code)` on the store is the count `StockOf` gives for its stock lists. |
| Stores.Store.UseStock | index.js:779 | Either exactly `qty` items are handed out from the front of the code's list and removed from it, or nothing is taken and the result is falsy. Balances are unchanged. |
| Stores.Store.UpdateBalance | index.js:789 | The user's balance moves by exactly `delta`. Nothing else changes. |
| Stores.Store.Balance | index.js:767-768 | The user's balance, or None without a user record. |
| BalancePurchase.Checkout | index.js:750-804 | See the list after this table. |
| BalancePurchase.PayWithBalance | index.js:750-804 | The handler's reply and both stores afterwards are `Checkout` of the product found and the stores before. |
| BalancePurchase.Settle | index.js:756-798 | The same, for a product that was found: the checks, then `useStock`, then the debit. |
| Qris.FindTag54From | index.js:78 | `match(/54(\d{2})/)` finds the leftmost `5`, `4`, digit, digit. None when there is none. |
| Qris.IndexOfFirstMatch | index.js:80-81 | `indexOf` of the matched text is the match position. |
| Qris.CheckAmount | index.js:76-90 | See the list after this table. |
| Qris.GenuineAmountFieldPasses | index.js:78-87 | A code whose first `54dd` match is `54`, the length of the amount's digits, then those digits, states exactly those digits, and no mismatch is logged. |
| Qris.MismatchWhenStatedDiffers | index.js:85-87 | When the stated text is the decimal digits of some number, the warning is logged exactly when that number differs from the amount. |
| Qris.StatedValue | index.js:80-82 | `substr` at the position `indexOf` finds cuts the text of the stated length, below 100, four characters after the first match, and stops at the end of the text. |
| Qris.GenerateQris | index.js:67-92 | Generation fails (throws) exactly when the answer has no `qrCode`, or its `qrCode` has no comma. Otherwise the image is the decoding of the piece after the first comma. The amount check only logs, so it never changes the result. |
| Qris.PayableTotal | index.js:504-505 | total = base + code, so total - code = base and total lies in [base+100, base+999]. |
| Qris.DepositRecord | index.js:507-543 | A deposit record exists exactly when the QR was generated and the photo sent. It holds the user, the base amount, the code and amount + code. |
| Qris.RequestDeposit | index.js:503-556 | The registry gains that record under the deposit id on success. On any failure it is unchanged and the error reply is given. |
| Qris.PurchaseRecord | index.js:806-870 | A purchase record exists exactly when the product exists, the stock suffices, and the QR, the deletion and the photo all succeeded. It holds the user, the product's id, name and code, the quantity, subtotal = price*qty, the code and total = subtotal + code. |
| Qris.RequestQrisPurchase | index.js:806-870 | The registry gains exactly that record on success and is unchanged otherwise. An unknown product gets no reply. Too little stock gets the stock reply. A failed generation or deletion gets the error reply. A photo that fails after the deletion gets no reply, because the error reply edits the deleted message and throws. |
| Qris.PendingPayments.Add | index.js:856 | Registers the record under its id. |
| TextInput.RouteText | index.js:267-492 | A text equal to a reply-keyboard label goes to that label's handler, not to the text handler. |
| TextInput.Decide | index.js:492-572 | See the list after this table. |
| TextInput.Sessions.HandleText | index.js:492-572 | See the list after this table. |
| TextInput.Sessions.TakeAmount | index.js:494-558 | The deposit branch: a refused amount changes nothing and gives the error reply; an accepted one does what `AcceptAmount` does. |
| TextInput.Sessions.AcceptAmount | index.js:501-556 | The deposit state is dropped, the edit state kept, and the registry gains the deposit record exactly when `DepositRecord` has one. |
| TextInput.Sessions.TakeQuantity | index.js:562-569 | The quantity branch: a refused quantity changes nothing; an accepted one drops only the edit state and shows that product with that quantity. |
| TextInput.DepositServedFirst | index.js:494-562 | While a deposit is pending, whether a quantity edit is also pending makes no difference to the decision. |
| TextInput.Sessions.BeginQtyEdit | index.js:256-260 | ✏️ records the product whose quantity the user is editing. The deposit state is unchanged. |
| TextInput.Sessions.BeginDeposit | index.js:267-293 | "💳 Deposit Saldo" puts the user in the deposit state. The edit state is unchanged. |
| TextInput.Sessions.BackToMenu | index.js:412-490 | "🔙 Kembali ke Menu" drops the deposit state but keeps a quantity edit. It draws the home keyboard, which is present only when categories exist. |
| TextInput.AmountWithWordsAccepted | index.js:494-498 | "1000 rupiah" is taken as a deposit of 1000. |
| TextInput.SeparatedAmountRefused | index.js:494-498 | "10.000" is read as 10 and refused. |
| TextInput.WordsRefused | index.js:494-498 | An amount written in words is NaN and is refused. |
| TextInput.ZeroQuantityRefused | index.js:563-564 | A typed quantity of 0 is refused. |
| TextInput.QuantityTakenAsAmount | index.js:494-564 | While a deposit is pending, a typed "3" is refused as an amount even if a quantity edit is also pending: the deposit state comes first. |

Under **AddProduct.Plan** (handlers/admin/addproduct.js:5-44):

- An empty argument after removing the command, and only that, gets the usage reply.
- Otherwise fewer than five parts always gets the too-few-parts reply.
- With five or more parts, a category matching no existing one ignoring case always gets
  the unknown-category reply.
- These refusals add nothing.
- Otherwise the added groups are exactly the complete groups whose price passes the
  guard. The reply lists their names in input order, or reports failure when there are
  none.

Under **BalancePurchase.Checkout** (index.js:750-804):

- There is no reply only for an unknown product.
- The stock check comes first.
- A missing user, or a balance below price*qty, gives the balance reply. The balance
  check comes before `useStock`.
- `useStock` failing after the checks passed gives its own reply.
- A purchase happens exactly when all the checks pass and `useStock` succeeds.
- Only a purchase changes the stores.
- A purchase debits exactly price*qty and takes exactly qty items. The remaining balance
  reported equals the new balance and is never negative.
- A NaN (null) price makes the purchase free.

Under **Qris.CheckAmount** (index.js:76-90):

- No tag leads to the "not found" log.
- Otherwise the stated amount is the text of the two-digit length (below 100) starting
  four characters after the first match. It is cut short at the end of the text.
- The mismatch warning is not part of the result. The predicate `MismatchLogged` defines
  when it is logged: when parseInt of the stated text is not the amount.
  `GenuineAmountFieldPasses` states when it is not.

Under **TextInput.Decide** (index.js:492-572):

- While a deposit is pending, only the deposit branch runs.
- An amount is accepted iff parseInt gives at least 1000.
- A quantity is accepted iff no deposit is pending, an edit is, and parseInt gives at
  least 1. It is refused iff no deposit is pending, an edit is, and parseInt gives NaN or
  less than 1.
- The text is passed on iff neither state is set.

Under **TextInput.Sessions.HandleText** (index.js:492-572):

- A refused amount or quantity, and a passed-on text, leave both states and the registry
  unchanged.
- An accepted amount drops only the deposit state and makes the deposit request.
- An accepted quantity drops only the edit state and shows the product screen with that
  quantity.

## Left out

- The Telegraf and Express wiring, message texts and Markdown captions, `toLocaleString`
  formatting, the clock display and the random quotes. These are presentation.
- The `axios` call to the QR generator, base64 decoding, `replyWithPhoto` and
  `deleteMessage`. They are network I/O; their outcomes are inputs of
  Qris.RequestDeposit, Qris.RequestQrisPurchase and TextInput.Sessions.AcceptAmount.
- `answerCbQuery` (index.js:257, 753, 809) and the `ctx.reply` of the deposit prompt
  (index.js:282-289) are assumed to succeed. The handler awaits each before any state
  change, so a failure ends it with nothing changed; TextInput.Sessions.BeginQtyEdit,
  TextInput.Sessions.BeginDeposit, BalancePurchase.Checkout and Qris.RequestQrisPurchase
  model only the run in which the call succeeded.
- `Math.random` and `Date.now`. The unique code is an input constrained to [100, 999];
  payment and product ids are opaque strings.
- Float product ids. `Date.now() + Math.random()` and `parseFloat` of the captured id are
  floating point, so ids are treated as strings compared exactly.
- The `createdAt` timestamp and the `messageToDelete` message id of both pending records
  (index.js:533-543, 843-854). They come from the clock and from the sent photo; neither
  `Pending` variant carries them. The product record's `createdAt`
  (database/products.js:38) is left out of `Product` for the same reason.
- Totals are not assumed unique. No collision check exists, and none is modelled.
- handlers/qrisAPI.js (webhook, matching, expiry), database/stocks.js, database/users.js
  and database/categories.js are not part of this model. The stores are modelled from how
  their functions are called. Categories are a sequence given to each operation.
- Stores.Store.UseStock: the contract is an assumption about a store whose code is not
  part of this model. It is that the first `qty` items are taken when there are that
  many, and nothing otherwise.
- BalancePurchase.Checkout: the success reply's remaining balance is stated as the new
  balance. The source prints `user.balance - total` (index.js:798) from the record
  `getUser` returned before `updateBalance`; this equals the new balance only if
  database/users.js returns a snapshot that `updateBalance` does not mutate in between,
  which is assumed here.
- Stores.Store.UpdateBalance: requires an existing user record. That is the only way the
  handlers call it; its behaviour without a record is not part of this model.
- File I/O in `initDB`/`readDB`/`writeDB` and `JSON.parse`. The file is an in-memory
  sequence, and the parse outcome is an input to `ReadProducts`.
- Concurrent handlers. Each handler runs as one sequential step. So `useStock` failing
  after the stock check passed is reachable only through the store's own rules.
- The re-dispatch through `bot.handleUpdate` in the `prod_` handler and the reload of
  the config module. `PressProductButton` takes the re-dispatched `prod_{id}_1` as its
  result.
- Which texts the `bot.command` handlers consume. That depends on Telegram's message
  entities and the framework version. The text handler is modelled as receiving the
  texts no earlier handler took.
- The `isAdmin` middleware (middleware/auth is not part of this model) and
  handlers/admin/broadcast.js, a network send loop.
- `toLowerCase` is modelled on ASCII letters only, since case folding outside ASCII is
  not modelled.
- CategoryMenu.BuildCategoryButtons: requires `maxPerPage > 0`. Every use has 5. In
  JavaScript a zero does not throw: `n / 0` is Infinity, so the output would be no
  category rows, a "1/Infinity" indicator and a Next button; the requires excludes that
  degenerate output. The function is not called anywhere in index.js; the handlers inline
  their own copy.
- Qris.CheckAmount: its contract leaves out the mismatch warning, which only logs. The
  predicate `MismatchLogged` defines when it is logged.
- AddProduct.Kept: its own contract only bounds the length. What it keeps is stated by
  AddProduct.KeptMembers.
- Products.ProductsByCategory: its own contract states membership only. The stored order
  is stated by Products.ProductsByCategoryAppend.
- CallbackData.QtyUp: its contract states only that the quantity grows. The exact step is
  stated by CallbackData.QtyStepsInverse.
- The dead Prev branch of `back_home` on page 0 is not modelled as code, since page 0
  never shows Prev.
- TextInput.Sessions.HandleText: an accepted quantity is answered with the product screen
  by id and quantity. The lookup and message text of `showProductMessage`, and its throw
  on a null price (index.js:158), are not modelled.
- CallbackData.RouteEncode: the round trip is claimed for every quantity, since
  quantities are unbounded integers here. JavaScript writes a quantity of 1e21 or more in
  exponent form, which `(\d+)$` does not match.
- JsText.ParseInt: the result is an unbounded integer. JavaScript yields a double, which
  loses exactness above 2^53 and is Infinity for very long digit strings.
- Qris.PayableTotal: `amount + uniqueCode` is exact here. In JavaScript it is a double
  addition, exact only up to 2^53.
- Stores.Store.UpdateBalance: balance arithmetic is exact here, and exact in JavaScript
  only up to 2^53.
- JsText.Substr: positions count characters. JavaScript counts UTF-16 code units, which
  agrees for the ASCII content of a QR payload.

## Findings

| source | as written | input that shows it | evidently intended | confidence | as-written member | corrected member |
|---|---|---|---|---|---|---|
| handlers/admin/addproduct.js:33-34 | The price guard is `!isNaN(price)`, which treats blank text, `Infinity` and `.5` as numbers. The stored price is `parseInt(price)`, which is NaN for all of them, and `null` in the product file. | `/addproduk Canva,CP1,Canva Pro,,Garansi` (an empty price field) | Only prices parseInt can read are stored. A null price makes `price.toLocaleString` throw in the category listing (index.js:205, `ListingFailed` of CategoryMenu.OpenCategoryView) and on the product screen (index.js:158), and balance purchases of it cost 0 (index.js:769). | medium, not executed | AddProduct.EmptyPriceStoredAsNaN | AddProduct.CorrectedGuardStoresPrices |
