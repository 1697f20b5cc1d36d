# et-proforma marketplace core in Dafny

et-proforma is a business-to-business marketplace. Suppliers list products.
Customers fill a cart, check out and pay through the Chapa gateway. Customers
also post requests for quotation (RFQs) that suppliers answer, and the two sides
exchange messages.

This project models the marketplace's Laravel controllers and the rules the
React client applies around them. The controllers are checkout, orders, the
payment callback, cart, products, RFQs, RFQ responses and messages.

Each controller action is a pure function. It takes a `Store` holding every
table and returns the store after the request, the HTTP status and the JSON
body. Its contract states:

- which inputs are refused, and with which status;
- what the action writes;
- that nothing else changes.

Lemmas relate actions to each other and to the client code that calls them.

The modules follow the program's structure:

- `Wrappers`, `Seqs` and `Text` hold general helpers: `Option`, filtering,
  sub-lists, ASCII lower-casing, substring search, PHP `explode` and decimal
  digits.
- `Entities` holds the rows, the store and the reply shape.
- `Gateway` holds the payment gateway's request and answers.
- `Checkout`, `Orders`, `Payments`, `Cart`, `Products`, `Rfqs` and `Messages`
  each model one controller. `Rfqs` models both RFQ controllers.
- `CartContext`, `CheckoutPage`, `Catalog` and `OrdersPage` model the client:
  - the cart context;
  - the checkout page;
  - the public and dashboard product pages;
  - the dashboard orders page.

Conventions:

- **Tables.** A table that is never deleted from is a sequence whose row id is
  the row's position. Products and cart items are deleted from, so their rows
  carry their own ids in ascending order, next to an auto-increment counter.
- **Status codes.**
  - A failed `validate` is 422.
  - A missed route-model binding or `findOrFail` is 404.
  - `abort_unless` is 403.
  - A create that returns the model is 201.
  - Reading `->id` through a missing customer or supplier profile raises an
    error and gives 500.
- **Money** is an exact `real`. The tax rate is 0.15.
- **External inputs.** Each of these is a parameter of the operation that needs
  it:
  - the gateway's `initializePayment`, as a function;
  - the gateway's `verifyTransaction`, as a function;
  - the fresh UUID behind a transaction reference;
  - the clock of `now()`.

Facts about the code that a reader might not expect:

- A failed checkout validation answers 422; the controller does not turn it
  into a 400.
- `OrderController.store` does not set the non-null `order_items.supplier_id`
  column, so its items carry no supplier.
- The client's email test is weaker than the server's. `CheckoutPage.ClientValidNotServerValid`
  exhibits an address that passes the client and fails the server.
- `required` refuses a string that is empty after PHP's `trim`, so a value of
  white space only is refused. `Text.Filled` states that test once, and every
  `required` string uses it. A `sometimes|string|max:255` field is validated
  as Laravel's validator does it: a blank value skips those rules and passes.
- Request values are those the validator sees. The HTTP kernel, and with it
  the `TrimStrings` and `ConvertEmptyStringsToNull` middleware a Laravel
  application may register, is not part of this model.

## Model

All backend paths are under `et-proforma-backend/app/Http/Controllers/`, written out in full.

| member | source | states |
|---|---|---|
| Checkout.Checkout | et-proforma-backend/app/Http/Controllers/CheckoutController.php:16-145 | Non-customers get 403 and invalid requests 422, both with the store untouched. A shipping field of white space only is invalid, since `required` trims first. A request that fails the stock or single-supplier scan gets 400 with the scan's message. A 200 stores one initiated payment for the new order, whose reference is `b2b_` followed by the fresh UUID, and returns that reference. Users, cart, RFQs, messages and notifications never change. |
| Checkout.ScanLines | et-proforma-backend/app/Http/Controllers/CheckoutController.php:39-63 | An accepted scan yields one line per request line, priced at the product's current price. Every accepted line's product had at least the requested stock. Once a supplier is fixed, every accepted line carries that supplier. |
| Checkout.ScanAgainstSupplier | et-proforma-backend/app/Http/Controllers/CheckoutController.php:39-50 | With the supplier fixed, the scan accepts exactly when no line lacks stock or names another supplier. Otherwise it rejects with the message of the first offending line, and the stock message comes before the supplier message. |
| Checkout.ScanVerdict | et-proforma-backend/app/Http/Controllers/CheckoutController.php:39-50 | From an unset supplier, the first line fixes the supplier. The whole scan accepts exactly when no line offends against that supplier, and otherwise reports the first offending line. |
| Checkout.SubtotalIsRequestValue | et-proforma-backend/app/Http/Controllers/CheckoutController.php:52-62 | The accumulated subtotal equals Σ price × quantity over the request, priced from the product table. |
| Checkout.DecrementAllEffect | et-proforma-backend/app/Http/Controllers/CheckoutController.php:87-90 | After the decrement loop every product row has lost exactly the total quantity the request asks of its id. No other field changes and no row is added or removed. |
| Checkout.QtyForDistinct | et-proforma-backend/app/Http/Controllers/CheckoutController.php:87-90 | When each product appears in at most one line, the quantity taken from a product is that line's quantity, or 0 when no line names it. |
| Checkout.AcceptedDistinctStaysNonNegative | et-proforma-backend/app/Http/Controllers/CheckoutController.php:39-44 | When each product appears once, an accepted scan leaves no product with negative stock. |
| Checkout.RepeatedLinesOverdraw | et-proforma-backend/app/Http/Controllers/CheckoutController.php:42-44 | Stock is tested per line before any decrement. Two lines of one unit each for a product with stock 1 are both accepted, and the stock ends at −1. |
| Checkout.NameSplit | et-proforma-backend/app/Http/Controllers/CheckoutController.php:95-96 | The first name is the text of the full name before its first space. With no space, the first name is the whole name and the last name is `User`. Otherwise the last name is the text between the first and second space. |
| Checkout.CheckoutWrites | et-proforma-backend/app/Http/Controllers/CheckoutController.php:70-90 | Once past the scan, the order, its items and the stock decrements are written whatever the gateway answers. A gateway failure therefore leaves an unpaid order behind. |
| Checkout.CheckoutOrder | et-proforma-backend/app/Http/Controllers/CheckoutController.php:65-79 | Exactly one order is appended and the earlier ones are kept. It is pending and belongs to the caller's customer profile. Its subtotal is the request's value and its total is subtotal × 1.15 + shipping cost. |
| Checkout.CheckoutItems | et-proforma-backend/app/Http/Controllers/CheckoutController.php:54-60 | One order item is appended per request line, in request order, for the new order. Each records the product, quantity, unit price and line total. |
| Checkout.ItemsRecordLines | et-proforma-backend/app/Http/Controllers/CheckoutController.php:81-84 | Every item written for an accepted line records that request line against its product. |
| Checkout.CheckoutSingleSupplier | et-proforma-backend/app/Http/Controllers/CheckoutController.php:46-50 | When supplier ids start at 1, every product of an order that gets past the scan belongs to the order's supplier. |
| Checkout.CheckoutStock | et-proforma-backend/app/Http/Controllers/CheckoutController.php:86-90 | After a checkout past the scan, each product row's stock has fallen by exactly the quantity the request asked of it. |
| Checkout.CheckoutPayment | et-proforma-backend/app/Http/Controllers/CheckoutController.php:113-144 | The status is 200 exactly when the gateway answers `success`, and only then is an initiated `chapa` payment for the new order stored. A failure answer gives 400 and a raised exception 500, neither storing a payment. The gateway is asked for the order's total under the `b2b_` reference. |
| Checkout.FillOrder | et-proforma-backend/app/Http/Controllers/CheckoutController.php:155-169 | The item loop writes items only for the new order and keeps the earlier rows. When every product exists it writes one item per line and adds the request's value to the total. A missing product stops the loop; the items already written stay. |
| Checkout.StoreOrder | et-proforma-backend/app/Http/Controllers/CheckoutController.php:147-174 | A pending order is always appended first. The status is 201 exactly when every product exists, and the order's total is then the request's value. Otherwise the status is 404 and the order keeps total 0. |
| Orders.Listed | et-proforma-backend/app/Http/Controllers/OrderController.php:17-26 | Every listed row is the stored order under its id and passes the filter. Rows are newest first. |
| Orders.ListedComplete | et-proforma-backend/app/Http/Controllers/OrderController.php:17-26 | Every stored order that passes the filter is listed. |
| Orders.Index | et-proforma-backend/app/Http/Controllers/OrderController.php:13-29 | Roles other than customer and supplier get 403. A caller with a profile gets 200 with only the orders of their own profile. The store never changes. |
| Orders.IndexComplete | et-proforma-backend/app/Http/Controllers/OrderController.php:13-29 | Every order of the caller's customer or supplier profile appears in the listing. |
| Orders.Create | et-proforma-backend/app/Http/Controllers/OrderController.php:32-77 | Non-customers get 403. An unknown supplier or invalid lines give 422, with the store untouched. The status is 201 exactly when a customer with a profile sends valid lines for a known supplier. It then appends one pending order for that supplier whose subtotal equals its total. The items appended are exactly one per line, priced from the product table and carrying no supplier. |
| Orders.CreateEffect | et-proforma-backend/app/Http/Controllers/OrderController.php:46-69 | For valid lines, each product row loses exactly the total quantity the request asks of it. On a 201 the order's total is Σ price × quantity over the request. |
| Orders.TargetOfAccepts | et-proforma-backend/app/Http/Controllers/OrderController.php:81 | The accepted statuses are exactly approved, shipped, delivered and cancelled. |
| Orders.UpdateStatus | et-proforma-backend/app/Http/Controllers/OrderController.php:80-102 | An unknown order gives 404 and a status outside the list gives 422, both with the store unchanged. A 200 sets only that order's status and records one `OrderUpdated` notification for its customer. |
| Orders.UpdateStatusAuthorisation | et-proforma-backend/app/Http/Controllers/OrderController.php:83-101 | For an existing order and an accepted status, the update succeeds exactly when one of two holds. Either the caller is the order's supplier, or the caller is its customer and the target is cancelled. Otherwise the status is 403. |
| Orders.SupplierMovesAnywhere | et-proforma-backend/app/Http/Controllers/OrderController.php:85-89 | The order's supplier may set any accepted status, from any current status. |
| Orders.CustomerOnlyCancels | et-proforma-backend/app/Http/Controllers/OrderController.php:93-97 | The order's customer succeeds exactly with `cancelled`. |
| Orders.NeverSetsPendingOrPaid | et-proforma-backend/app/Http/Controllers/OrderController.php:81 | No status update ever sets an order back to pending or to paid. |
| Payments.Callback | et-proforma-backend/app/Http/Controllers/PaymentController.php:47-85 | A missing or falsy reference (`""` or `"0"`) gives 400 with the store untouched. An exception from the gateway's verification gives 500 with the store untouched. Otherwise the status is 200 exactly when the gateway answers success. Products are never touched. |
| Payments.Reconcile | et-proforma-backend/app/Http/Controllers/PaymentController.php:57-82 | Recording a verification touches only payments and orders, and neither table gains or loses rows. |
| Payments.CallbackSuccess | et-proforma-backend/app/Http/Controllers/PaymentController.php:59-73 | On success, the first payment with that reference becomes successful and stores the gateway's answer. Its order becomes paid. No other payment or order changes. |
| Payments.CallbackFailure | et-proforma-backend/app/Http/Controllers/PaymentController.php:76-84 | On failure, the first payment with that reference is marked failed and stores the answer. Orders are untouched and the status is 400. |
| Payments.CallbackUnknownRef | et-proforma-backend/app/Http/Controllers/PaymentController.php:55-84 | An unknown reference changes nothing, whatever the gateway says. |
| Payments.CallbackIdempotent | et-proforma-backend/app/Http/Controllers/PaymentController.php:47-85 | Delivering the same callback twice leaves the same store and status as delivering it once. |
| Cart.Add | et-proforma-backend/app/Http/Controllers/CartController.php:24-55 | A guest gets 401, and an unknown product or a quantity below 1 gets 422. The status is 200 exactly otherwise. An existing line for the same user and product grows by the quantity; otherwise a line with the next id is appended. Only the cart changes. |
| Cart.AddKeepsInvariants | et-proforma-backend/app/Http/Controllers/CartController.php:36-52 | Adding keeps at most one line per user and product, and keeps every line id below the next id in ascending order. |
| Cart.AddMerges | et-proforma-backend/app/Http/Controllers/CartController.php:41-44 | Adding a product already in the user's cart changes only that line's quantity, and the number of lines stays the same. |
| Cart.Update | et-proforma-backend/app/Http/Controllers/CartController.php:72-93 | A guest gets 401. A quantity below 1 gets 422. With a valid quantity, another user's or a missing line gets 404, and a quantity above the stock of the line's product gets 400. The status is 200 exactly when the quantity is at least 1, the caller owns the line and the quantity does not exceed the product's stock. A 200 sets only that line's quantity, and a refusal changes nothing. |
| Cart.UpdateScoped | et-proforma-backend/app/Http/Controllers/CartController.php:82-90 | An update never touches another user's lines, nor any line with another id. It changes nothing but a quantity. |
| Cart.Destroy | et-proforma-backend/app/Http/Controllers/CartController.php:58-68 | A guest gets 401. The status is 200 exactly when the caller owns a line with that id, and otherwise 404. Only the cart changes. |
| Cart.DestroyRemovesExactly | et-proforma-backend/app/Http/Controllers/CartController.php:64-65 | A successful delete leaves no line with that id and keeps every other line. Line ids stay ascending and below the next id. |
| Products.Create | et-proforma-backend/app/Http/Controllers/ProductController.php:13-47 | Non-suppliers get 403 and invalid input 422. A name or category of white space only is invalid, since `required` trims first. The status is 201 exactly when a supplier with a profile sends valid input. The new product then gets the next id and the caller's supplier profile, and only the product table and its counter change. |
| Products.BlankNameRefused | et-proforma-backend/app/Http/Controllers/ProductController.php:21-28 | A supplier sending a name of white space only gets 422 and nothing is stored. |
| Products.CreateKeepsIds | et-proforma-backend/app/Http/Controllers/ProductController.php:36-44 | Creating keeps product ids ascending and below the next id. |
| Products.PatchChangesOnlySupplied | et-proforma-backend/app/Http/Controllers/ProductController.php:58-78 | Every field the request supplies is written with the supplied value, and every field it leaves out keeps its value. Id and supplier never change. A valid patch keeps price and stock non-negative. |
| Products.Guard | et-proforma-backend/app/Http/Controllers/ProductController.php:52-56 | The action proceeds exactly when the product exists and the caller owns it. A refusal leaves the store unchanged, and a supplier who does not own the product gets 403. |
| Products.Update | et-proforma-backend/app/Http/Controllers/ProductController.php:50-81 | The status is 200 exactly when the product exists, the caller owns it and the patch is valid. A sent name or category passes when it is blank, because the validator skips `string` and `max` on a blank value, and otherwise must be at most 255 characters. Non-suppliers get 403 for an existing product. A refusal changes nothing. A 200 replaces that row with its patched version. |
| Products.BlankPatchStored | et-proforma-backend/app/Http/Controllers/ProductController.php:58-78 | An owner's patch with a name of white space only passes validation, and the row takes that name as sent. |
| Products.UpdateKeepsOthers | et-proforma-backend/app/Http/Controllers/ProductController.php:50-81 | An update changes at most the addressed row. No product's stock becomes negative. |
| Products.Destroy | et-proforma-backend/app/Http/Controllers/ProductController.php:84-98 | The status is 200 exactly when the product exists and the caller owns it. A 200 removes that one row, and a refusal changes nothing. |
| Products.DestroyRemovesExactly | et-proforma-backend/app/Http/Controllers/ProductController.php:96 | A delete removes exactly the product with that id, keeps the others in order, and keeps ids below the next id. |
| Products.Available | et-proforma-backend/app/Http/Controllers/ProductController.php:111-115 | The available list holds exactly the products with positive stock. |
| Products.AvailableInOrder | et-proforma-backend/app/Http/Controllers/ProductController.php:111-115 | Available products keep the table's order. |
| Rfqs.Create | et-proforma-backend/app/Http/Controllers/RFQController.php:12-36 | Non-customers get 403 and a customer without a profile 400. A title of white space only gets 422. The status is 201 exactly when the title has a character other than white space and is at most 255 characters. The new RFQ is then open, belongs to the caller's customer profile, and only the RFQ table changes. |
| Rfqs.IndexExact | et-proforma-backend/app/Http/Controllers/RFQController.php:39-42 | An RFQ is listed exactly when it is open. |
| Rfqs.CreatedIsListed | et-proforma-backend/app/Http/Controllers/RFQController.php:24-42 | The row a successful create returns appears in the listing of open RFQs. |
| Rfqs.OpenFromComplete | et-proforma-backend/app/Http/Controllers/RFQController.php:39-42 | Every open RFQ is listed. |
| Rfqs.Close | et-proforma-backend/app/Http/Controllers/RFQController.php:51-60 | An unknown RFQ gives 404. The status is 200 exactly when the caller is a customer owning the RFQ. Only that RFQ's status changes, to closed. |
| Rfqs.CloseByOthersRefused | et-proforma-backend/app/Http/Controllers/RFQController.php:53-56 | Anyone but the owning customer is refused with 403 and changes nothing. |
| Rfqs.CloseIdempotent | et-proforma-backend/app/Http/Controllers/RFQController.php:51-60 | Closing twice leaves the same store as closing once, and closing a closed RFQ changes nothing. |
| Rfqs.Respond | et-proforma-backend/app/Http/Controllers/RFQResponseController.php:13-39 | For an existing RFQ, non-suppliers get 403 and a closed RFQ gives 400. The status is 201 exactly when a supplier with a profile answers an existing open RFQ with a price of at least 0 and a quantity of at least 1. Exactly that response is then appended, and only the response table changes. |
| Rfqs.RespondKeepsWellFormed | et-proforma-backend/app/Http/Controllers/RFQResponseController.php:30-36 | Every stored response refers to an existing RFQ and has a price of at least 0 and a quantity of at least 1, before and after. |
| Rfqs.ClosedTakesNoResponses | et-proforma-backend/app/Http/Controllers/RFQResponseController.php:21-23 | Once an RFQ is closed, no response to it is accepted. |
| Messages.Inbox | et-proforma-backend/app/Http/Controllers/MessageController.php:16-51 | There is one inbox entry per conversation partner, never two for the same partner. |
| Messages.InboxCoversAll | et-proforma-backend/app/Http/Controllers/MessageController.php:20-28 | Everyone the user has exchanged a message with has an inbox entry. |
| Messages.InboxLatest | et-proforma-backend/app/Http/Controllers/MessageController.php:29-46 | Each entry's preview is a message of that conversation with the newest creation time. |
| Messages.UnreadCountExact | et-proforma-backend/app/Http/Controllers/MessageController.php:32-34 | The unread messages counted are exactly the other person's unread messages to the user. |
| Messages.SortByTime | et-proforma-backend/app/Http/Controllers/MessageController.php:70-78 | The conversation is ordered oldest first and is a rearrangement of its messages. |
| Messages.InsertSorted | et-proforma-backend/app/Http/Controllers/MessageController.php:70-78 | Inserting a message into a time-ordered list keeps it time-ordered. |
| Messages.Conversation | et-proforma-backend/app/Http/Controllers/MessageController.php:56-87 | An unknown partner gives 404 and one with the caller's own role gives 403, both with the store unchanged. A 200 returns the two users' messages oldest first. |
| Messages.ConversationExact | et-proforma-backend/app/Http/Controllers/MessageController.php:69-78 | The returned conversation holds exactly the messages between the two users. |
| Messages.ConversationMarksRead | et-proforma-backend/app/Http/Controllers/MessageController.php:80-84 | Opening a conversation marks read exactly the partner's messages to the caller. Every other message stays as it was. |
| Messages.Send | et-proforma-backend/app/Http/Controllers/MessageController.php:92-119 | Blank content (empty or white space only) gets 422. Valid content sent to a user with the sender's own role gives 403. The status is 201 exactly when the receiver exists with another role and the content has a character other than white space and is at most 1000 characters. A refusal changes nothing. An unread message stamped `now` is then appended. |
| Messages.UnreadAppend | et-proforma-backend/app/Http/Controllers/MessageController.php:32-34 | Appending an unread message to a user puts it at the end of that user's unread messages from its sender. |
| Messages.InboxCountsUnread | et-proforma-backend/app/Http/Controllers/MessageController.php:20-34 | The inbox entry for anyone the user has exchanged a message with counts exactly the user's unread messages from them. |
| Messages.SentIsDelivered | et-proforma-backend/app/Http/Controllers/MessageController.php:92-119 | After a successful send, the sender's conversation with the receiver holds the message. The receiver's unread messages from the sender gain exactly this one, and the inbox entry for the sender counts one more. |
| Messages.MarkAsRead | et-proforma-backend/app/Http/Controllers/MessageController.php:124-138 | An unknown message gives 404 and one addressed to someone else 403. A 200 sets only that message's read flag. |
| Messages.MarkAsReadIdempotent | et-proforma-backend/app/Http/Controllers/MessageController.php:124-138 | Marking a message read twice leaves the same store as marking it once. |
| OrdersPage.AvailableStatuses | src/pages/dashboard/Orders.tsx:149-166 | The page offers at most two next statuses. |
| OrdersPage.TransitionTable | src/pages/dashboard/Orders.tsx:149-166 | A supplier is offered approved or cancelled for a pending order, shipped for an approved or paid one, and delivered for a shipped one. Everyone else is offered cancelled for a pending order and nothing otherwise. |
| OrdersPage.TerminalStatuses | src/pages/dashboard/Orders.tsx:160-163 | Delivered and cancelled orders are offered nothing. |
| OrdersPage.CaseInsensitive | src/pages/dashboard/Orders.tsx:150 | The offer depends only on the lower-cased current status. |
| OrdersPage.OfferedAreAcceptedTargets | src/pages/dashboard/Orders.tsx:149-166 | Every offered status is one the server's update accepts, and differs from the current status. |
| OrdersPage.OfferedTargetsGoThrough | src/pages/dashboard/Orders.tsx:89-110 | An offered status sent by the order's supplier, or by its customer, succeeds on the server. |
| OrdersPage.ApplyStatusUpdate | src/pages/dashboard/Orders.tsx:93-95 | After an update the list has the same orders in the same order. Only the updated order's status changes. |
| OrdersPage.ApplyStatusUpdateIdempotent | src/pages/dashboard/Orders.tsx:93-95 | Applying the same update twice equals applying it once. |
| CartContext.GetTotalIsSum | et-proforma-frontend/src/contexts/CartContext.tsx:101-103 | The running fold from 0 equals the sum of price × quantity over the cart, and an empty cart totals 0. |
| CartContext.GetTotalAdditive | et-proforma-frontend/src/contexts/CartContext.tsx:101-103 | The total of two carts joined is the sum of their totals. |
| CartContext.GetTotalOrderIndependent | et-proforma-frontend/src/contexts/CartContext.tsx:101-103 | Any rearrangement of the cart has the same total. |
| CartContext.GetTotalNonNegative | et-proforma-frontend/src/contexts/CartContext.tsx:101-103 | With non-negative prices and quantities, the total is non-negative. |
| CartContext.AddToCart | et-proforma-frontend/src/contexts/CartContext.tsx:60-73 | A guest sends nothing. A signed-in user sends exactly the product and quantity given. |
| CartContext.ClearCart | et-proforma-frontend/src/contexts/CartContext.tsx:105-118 | The list is emptied only when a signed-in user's delete succeeded. Otherwise it is kept. |
| CartContext.ClearedTotalIsZero | et-proforma-frontend/src/contexts/CartContext.tsx:105-118 | A cleared cart totals 0. |
| CheckoutPage.ParseFloatDigits | et-proforma-frontend/src/pages/dashboard/Checkout.tsx:32-38 | A non-empty run of digits parses as the number it spells. |
| CheckoutPage.ParseCostWhole | et-proforma-frontend/src/pages/dashboard/Checkout.tsx:32-38 | The decimal spelling of a whole number is stored as that number. |
| CheckoutPage.ParseCostNonNumeric | et-proforma-frontend/src/pages/dashboard/Checkout.tsx:32-38 | Within the decimal literals the model parses, empty input or input that cannot start one is stored as 0. |
| CheckoutPage.HandleInputChange | et-proforma-frontend/src/pages/dashboard/Checkout.tsx:32-38 | The edited field takes the new value: the shipping cost parsed, a text field verbatim. Every other field keeps its value. |
| CheckoutPage.ComputeTotals | et-proforma-frontend/src/pages/dashboard/Checkout.tsx:40-43 | The subtotal is the cart's Σ price × quantity. Tax is 15% of it, and the grand total is subtotal × 1.15 plus shipping. |
| CheckoutPage.ItemsPayload | et-proforma-frontend/src/pages/dashboard/Checkout.tsx:58-63 | One request line per cart line, in cart order, with the line's product id and quantity. |
| CheckoutPage.BuildRequest | et-proforma-frontend/src/pages/dashboard/Checkout.tsx:47-63 | The page posts exactly when its form checks pass. It sends the cart's lines, and as shipping the form itself: every key carries the form's value. |
| CheckoutPage.ServerValidIsClientValid | et-proforma-frontend/src/pages/dashboard/Checkout.tsx:47-54 | Every shipping form the server accepts also passes the page's checks. |
| CheckoutPage.ClientValidNotServerValid | et-proforma-frontend/src/pages/dashboard/Checkout.tsx:47-54 | The converse fails: the email `@x` passes the page and is refused by the server. |
| CheckoutPage.AfterResponse | et-proforma-frontend/src/pages/dashboard/Checkout.tsx:66-77 | With a non-empty checkout URL and a logged-in user whose server cart was deleted, the cart is emptied. Without such a URL, or when the user or the delete is missing, the cart is kept. |
| CheckoutPage.SumIsRequestValue | et-proforma-frontend/src/pages/dashboard/Checkout.tsx:40-63 | With current prices, the page's subtotal equals the value the server computes for the posted lines. |
| CheckoutPage.PageTotalIsOrderTotal | et-proforma-frontend/src/pages/dashboard/Checkout.tsx:40-43 | With current prices, the grand total the page shows is the total of the order the server creates. |
| Catalog.FilterProducts | et-proforma-frontend/src/pages/Products.tsx:101-106 | The filter fails exactly when a product whose name does not match has no description. Otherwise it keeps the products that match both search and category, in order. |
| Catalog.FilterExact | et-proforma-frontend/src/pages/Products.tsx:101-106 | Every shown product matches the search and the category, and every product that matches both is shown, in catalogue order. |
| Catalog.SearchIgnoresCase | et-proforma-frontend/src/pages/Products.tsx:102-104 | The search gives the same result for a term in any letter case. |
| Catalog.EmptySearchShowsAll | et-proforma-frontend/src/pages/Products.tsx:101-106 | With no search term and category "all", every product is shown. |
| Catalog.TypingNarrows | et-proforma-frontend/src/pages/Products.tsx:101-106 | Extending the search term shows a sub-list of what the shorter term showed. |
| Catalog.MissingDescriptionThrows | et-proforma-frontend/src/pages/Products.tsx:103-104 | A product anywhere in the list without a description, whose name does not contain the term, makes the whole filter fail whatever the category. |
| Catalog.EmptyNameThrows | et-proforma-frontend/src/pages/Products.tsx:103-104 | A product with an empty name and no description makes every non-empty search fail. |
| Catalog.Categories | et-proforma-frontend/src/pages/Products.tsx:53 | The category list has no duplicates and no empty entry. It holds exactly the non-empty categories of the products. |
| Catalog.HandleAddToCart | et-proforma-frontend/src/pages/Products.tsx:67-99 | A guest is sent to log in and a non-customer is refused. A customer adds exactly one unit of that product. |
| Catalog.Endpoint | src/pages/dashboard/Products.tsx:70-73 | Suppliers load their own products and everyone else loads the whole catalogue. |
| Catalog.ReplaceProduct | src/pages/dashboard/Products.tsx:118 | After an edit, the row with that id is replaced and every other row is kept in place. |
| Catalog.DeleteProduct | src/pages/dashboard/Products.tsx:135-140 | After a delete, the list holds exactly the products with another id. |
| Catalog.DeleteKeepsOrder | src/pages/dashboard/Products.tsx:135-140 | Deleting keeps the remaining products in their order. |
| Catalog.EditMirrorsServer | src/pages/dashboard/Products.tsx:105-118 | A list that mirrors the product table still mirrors it after a successful server update. |
| Catalog.DeleteMirrorsServer | src/pages/dashboard/Products.tsx:135-140 | A list that mirrors the product table still mirrors it after a successful server delete. |
| Text.JoinExplode | et-proforma-backend/app/Http/Controllers/CheckoutController.php:95-96 | Joining the pieces of `explode(' ', …)` on single spaces restores the string. |
| Text.FilledPadded | et-proforma-backend/app/Http/Controllers/CheckoutController.php:26-31 | White space alone never passes `required`, and white space around a value does not change whether it passes. |

## Left out

- Products.Update: without the kernel's `TrimStrings` and `ConvertEmptyStringsToNull` middleware a blank patched name or category is stored as sent; with them it would reach the validator as null and be refused with 422. The kernel is not part of this model.
- The body of an uncaught exception (the gateway's verification failing in `PaymentController.callback`) is taken to be the framework's generic `Server Error`; the handler's rendering is not modelled.
- Only the stated rules of `validate` are modelled. Laravel's full `email` rule is reduced to an `@` with text on both sides; that is what `Checkout.ValidEmail` checks.
- Checkout.NewOrder: does not keep `tax`, `shipping_cost` or `shipping_info`, because `et-proforma-backend/app/Models/Order.php` lines 12-14 do not list them as fillable and mass assignment drops them.
- `OrderItem.php` and `Payment.php` are not part of this model. Their fields are taken to be fillable as the controllers use them.
- Orders.Create: records items with no supplier, as the controller leaves `supplier_id` unset. The database would refuse such a row because the column is non-null; the model does not model that failure.
- Checkout.RepeatedLinesOverdraw: stock may end negative when one product is named on two lines. This is the code's behaviour, and the model keeps it.
- Decimal columns, rounding and `toFixed` are not modelled; money is exact.
- CheckoutPage.ParseFloat: covers decimal literals with an optional sign, leading spaces and a fraction. It leaves out exponents, `Infinity` and whitespace other than the space, none of which a shipping-cost field is expected to hold.
- Text.ToLower: lower-cases ASCII letters only, and JavaScript's Unicode case mapping is not modelled.
- The gateway itself (`Chapa::initializePayment`, `Chapa::verifyTransaction`) is a parameter, and so are UUIDs and the clock.
- `PaymentController.pay` is not modelled. It is a second payment entry point outside the checkout flow.
- Authentication, the role middleware and broadcasting of `OrderUpdated` are not modelled. The notification is recorded as an event in the store.
- Listings that only read and return rows are not modelled: `CartController.index`, `ProductController.index` and `show`, and `RFQController.show`.
- The product dashboard's `parseFloat`/`parseInt` of price and stock before an update is not modelled; the update takes the server's patch.
- Client calls that only forward to the server are not modelled separately. These are `removeFromCart`, `updateQuantity`, `refreshCart` and the page's API calls. The server actions they reach are modelled.
- Messages.InboxLatest: for equal creation times `sortByDesc` is taken to keep the first message, and the newest-first order of `latest()` is taken by id. The database's tie order is not specified.
- Messages.SortByTime: ties in creation time may come out in any order, as in the database query.
- Routing mismatches are left to the routes file:
  - there is no `DELETE /cart` route, which is why `CartContext.ClearCart` takes whether the delete succeeded;
  - the client uses `PUT` for cart updates while the route is `PATCH`;
  - `/products/available` is shadowed by `/products/{product}`.
- Rfqs.Create: assumes the column default `open` for a new RFQ, because the RFQ migration is not part of this model.
- Image uploads, pagination and every part of the user interface other than the rules named above are not modelled.
