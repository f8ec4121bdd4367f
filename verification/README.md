# Kiosk order lifecycle in Dafny

A Dafny model of the order core of a self-service kiosk server. A customer's
cart becomes a *pre-order* (state WaitingPayment) in the pending collection;
the payment gateway's approval promotes it to the confirmed collection
(WaitingAccept); staff accept it (Done) or it is canceled (Canceled), a
pre-order by deletion and a confirmed order by rewriting it with a cancel
record. The model covers:

- the order entities and their numeric state and payment-method codes
  (`types.dfy`);
- the two order collections and the date index as pure maps, with the
  lookup result that says which collection an order came from (`store.dfy`);
- the order commands `get`, `all`, `findByDate`, `place`, `cancel` (with
  its optional guard), `updateStatus` and `accept` (`orders.dfy`), and the
  older `cancel` whose guard is read differently (`legacy.dfy`);
- the request validators: the structural predicates on raw JSON, payment
  method validation and the resolution of a raw `[quantity, itemId]` list
  against the catalog (`validation.dfy`), the UUID check on order ids
  (`uuid.dfy`);
- the HTTP handlers for placing an order, reconciling the payment with the
  gateway's reply and canceling an order (`routes.dfy`);
- the logger's zero padding (`logger.dfy`).

JavaScript values are modelled by `Js.Value` (undefined, null, booleans,
integer numbers, strings, arrays, objects) with the `typeof`, truthiness,
property access (reading a property of null or undefined throws),
`Number(...)` and `String(...)` rules the code relies on (`js.dfy`,
`decimal.dfy`). Every thrown error is a `Failure` of `Errors.Error`. A
command returns the new store and the events it publishes; a handler
returns the store, the gateway calls it made and its reply, because a
handler can write and then throw.

The database calls (`findOrder`, `makeAnPreOrder`, `updateOrder`, …) are
used by the core but their module is not part of this model; `Store` gives
each the plain map meaning its callers rely on. `findOrder` looks in the
confirmed collection first, then in the pending one; in a valid store (no id
in both) the order does not matter (`Routes.LookupOrderIrrelevant`).

Where the code departs from the server's documented behaviour, the model
follows the code:

- the cancel handler asks the gateway to cancel only for an order in state
  WaitingAccept, whatever the payment method; it attaches no cancel record,
  does not bound the reason's length, publishes no event and does not wait
  for the store write;
- `POST /order` stores the pre-order directly: it neither indexes it by
  date nor publishes `placed` (that is what the `place` command does);
- `accept` writes the accepted order to the confirmed collection even when
  it was found in the pending one, leaving it in both
  (`Orders.AcceptKeepsOneCollection`).

## Model

| member | source | states |
|---|---|---|
| `OrderTypes.StateOfCode` | src/@types/order.ts:15-23 | a decoded state code encodes back to the same number |
| `OrderTypes.StateCodeRoundTrip` | src/@types/order.ts:15-23 | decoding the code of any state gives that state back |
| `OrderTypes.StateCodesDistinct` | src/@types/order.ts:15-23 | no two states share a code |
| `OrderTypes.ErrorStatesNegative` | src/@types/order.ts:12-23 | exactly Expired, Aborted, Canceled and Failed have negative codes |
| `OrderTypes.MethodOfCode` | src/utils/order.ts:53-54 | a number names a payment method only if that method's code is the number |
| `OrderTypes.MethodCodeRoundTrip` | src/@types/order.ts:25-31 | decoding the code of any payment method gives that method back |
| `OrderTypes.MethodCodesDistinct` | src/@types/order.ts:25-31 | no two payment methods share a code |
| `OrderTypes.MakeOrder` | src/@types/order.ts:38-44 | a new order carries no cancel record |
| `OrderTypes.OrderIsRequestPlus` | src/@types/order.ts:38-44 | an order is its verified request plus id, date, state and optional cancel record, and the request is recovered from it |
| `Store.FindOrder` | src/@types/order.ts:46-49 | the lookup finds an order exactly when the id is in a collection, and its flag tells which collection the returned order came from |
| `Store.MakeAnPreOrder` | src/routes/order.ts:111-114 | the new order is the request with the fresh id, date and state, stored in the pending collection and nowhere else |
| `Store.FindOrderRange` | src/commands/orders.ts:121-126 | the range query returns ids only of index entries whose time lies in the inclusive range, and every such id |
| `Store.InRangeAppend` | src/commands/orders.ts:121-126 | the range query distributes over the index, so each in-range entry contributes its id once, in index order |
| `Store.InRangeSingle` | src/commands/orders.ts:121-126 | one index entry yields its id exactly when its time is in range |
| `Store.GetOrders` | src/commands/orders.ts:128-130 | one result per id, null exactly for the ids no collection holds |
| `Store.PromoteThenFind` | src/routes/order.ts:215-220 | after promotion the order is found confirmed, is gone from the pending collection, and every other id is found as before |
| `Store.PromotePreservesValid` | src/routes/order.ts:215-220 | promotion keeps every order under its own id in exactly one collection |
| `Orders.Get` | src/commands/orders.ts:14-18 | `get` yields an order exactly when one is stored under the id: the confirmed copy when there is one, otherwise the pre-order |
| `Orders.Insert` | src/commands/orders.ts:24-26 | inserting into a newest-first list keeps it newest first and adds exactly that order |
| `Orders.SortByDateDesc` | src/commands/orders.ts:24-26 | the sort is a permutation of its input, newest first |
| `Orders.All` | src/commands/orders.ts:23-26 | `all` sorts the list the database returns newest first, keeping each order exactly as often as given, and a missing list stays missing |
| `Orders.PresentOnly` | src/commands/orders.ts:128-130 | dropping nulls keeps each present order exactly as often as it occurs |
| `Orders.PresentOnlyAppend` | src/commands/orders.ts:128-130 | dropping nulls from a concatenation is dropping them from each part and concatenating, so the survivors keep their order |
| `Orders.PresentOnlySingle` | src/commands/orders.ts:128-130 | a single entry survives exactly when it is present |
| `Orders.FindByDate` | src/commands/orders.ts:121-133 | the orders found for the ids indexed in range, nulls dropped, newest first, and nothing when no index entry is in range |
| `Orders.FindByDateListsStoredOrders` | src/commands/orders.ts:121-133 | every listed order is stored under an id indexed with a time in range |
| `Orders.Place` | src/commands/orders.ts:99-113 | `place` stores the request as a pre-order in the given state under the fresh id, leaves every other pre-order and the confirmed collection alone, indexes it by date and publishes `placed` with it |
| `Orders.PlacePreservesValid` | src/commands/orders.ts:99-113 | placing keeps the store valid |
| `Orders.CanceledCopy` | src/commands/orders.ts:72-76 | the canceled copy differs only in state Canceled and its cancel record holding the reason and time |
| `Orders.CommitCancel` | src/commands/orders.ts:78-82 | a pre-order is deleted, a confirmed order is overwritten with its canceled copy |
| `Orders.CancelChecks` | src/commands/orders.ts:44-60 | the checks run in order: UUID shape, existence, reason longer than 256 UTF-16 units, already canceled; all pass exactly when none fails |
| `Orders.GuardVerdict` | src/commands/orders.ts:62-70 | the guard lets the cancel go on exactly when it returns `true` or a falsy value; a thrown error or a returned `Error` is surfaced with its own message, any other truthy value gives the generic validation error |
| `Orders.Cancel` | src/commands/orders.ts:36-93 | `cancel` fails with the first failed check, then with the guard's error when the guard refuses; it succeeds exactly when the checks pass and the guard allows it, then commits the canceled copy and publishes `canceled` |
| `Orders.CancelEffect` | src/commands/orders.ts:72-82 | after a cancel the store stays valid, a pre-order is gone, a confirmed order is found canceled with its reason, and every other id is unaffected |
| `Orders.CancelCanceledFails` | src/commands/orders.ts:58-60 | a canceled order cannot be canceled |
| `Orders.CancelTwiceFails` | src/commands/orders.ts:48-60 | a second cancel fails: "already canceled" for a confirmed order, "not found" for a deleted pre-order |
| `Orders.UpdateStatus` | src/commands/orders.ts:141-164 | fails exactly when no order is stored; otherwise replaces only the state, in the collection the order was found in, and publishes `statusUpdate` |
| `Orders.UpdateStatusOnlyState` | src/commands/orders.ts:148-163 | after an update the order is in the same collection with only its state changed, the store stays valid and other ids are unaffected |
| `Orders.Accept` | src/commands/orders.ts:166-198 | `accept` succeeds exactly for an order awaiting acceptance, fails "already accepted" for Done and "not awaiting" for any other state, writes the Done copy to the confirmed collection and publishes `accepted` |
| `Orders.AcceptTwiceFails` | src/commands/orders.ts:173-175 | accepting twice fails the second time with "already accepted" |
| `Orders.AcceptKeepsOneCollection` | src/commands/orders.ts:181-186 | acceptance keeps the store valid exactly when the order was not a pre-order, and the order is afterwards found Done |
| `LegacyOrder.LegacyGuardVerdict` | src/commands/order.ts:36-41 | the older guard lets the cancel go on exactly when its reply is truthy; a rejection surfaces its own error, a falsy reply gives the generic validation error |
| `LegacyOrder.Cancel` | src/commands/order.ts:13-54 | the same checks as `cancel`, then the guard read as a boolean, failing with the guard's error when it refuses, then the same commit, with no event |
| `LegacyOrder.GuardSemanticsDiffer` | src/commands/order.ts:36-41 | a guard returning `false` blocks the older cancel but not the newer; one returning an error blocks the newer but not the older; without a guard both write the same store |
| `Uuid.MatchesPositionwise` | src/utils/string.ts:7 | the matcher accepts exactly the strings of the pattern's length whose every character is in its position's class |
| `Uuid.ValidUUIDShape` | src/utils/string.ts:6-10 | an id is accepted exactly when it is 36 characters with dashes at 8, 13, 18, 23, a version 0-5 at 14, a variant 0/8/9/a/b at 19 and hex digits elsewhere, either case |
| `Uuid.ValidUUIDLength` | src/utils/string.ts:7 | every accepted id has 36 characters |
| `Uuid.ValidUUIDCaseInsensitive` | src/utils/string.ts:7 | lower- or upper-casing an id does not change whether it is accepted |
| `Validation.VerifyStoreItem` | src/utils/order.ts:22-51 | only an object passes; null throws; the check passes exactly when the name is a string, the price a number, description and image absent or strings, `options` of object type and, with the flag, the id a string that is not a UUID |
| `Validation.VerifyPaymentMethod` | src/utils/order.ts:53-54 | true exactly for the number codes of the five methods |
| `Validation.VerifyStoreItemWithAmounts` | src/utils/order.ts:56-72 | true exactly when the item check passes and `amounts` is a number |
| `Validation.VerifyOrderRequest` | src/utils/order.ts:74-96 | true exactly for an object with a method code as `payWith` and an array of `[number, string]` pairs as `items` |
| `Validation.ValidatePayMethod` | src/routes/order.ts:12-28 | null or undefined is "missing"; otherwise the result is the method whose code `Number(payWith)` equals, and any other value is "invalid" |
| `Validation.ValidatePayMethodIff` | src/routes/order.ts:12-28 | a value is accepted exactly when it is not nullish and converts to a method code |
| `Validation.ValidatePayMethodAgrees` | src/routes/order.ts:17-19 | on numbers the validation agrees with `verifyPaymentMethod`, and the decimal text of a code is accepted as that method |
| `Validation.ValidateOrderItems` | src/utils/order.ts:114-171 | non-objects and null fail "not valid type", non-array objects "not an array"; a result keeps the payment method and is priced at the sum of its line totals |
| `Validation.CheckEntriesSpec` | src/utils/order.ts:138-164 | the loop succeeds exactly when every entry is well shaped with a non-zero quantity and a known, unseen, unrepeated id, and then yields the catalog copy of each item with its quantity, in order |
| `Validation.ValidateOrderItemsSpec` | src/utils/order.ts:114-171 | an item list is accepted exactly when it is an array of acceptable entries, and the request then holds one catalog line per entry, the method, and the sum of line totals |
| `Validation.BadEntryRejected` | src/utils/order.ts:139-159 | one malformed, zero-quantity or unknown entry anywhere makes the whole list fail |
| `Validation.NegativeQuantityAccepted` | src/utils/order.ts:145-147 | a negative quantity of a known item is accepted and priced negatively |
| `Validation.VerifyStoreItemOnCatalogItems` | src/utils/order.ts:42-48 | on the JSON of a catalog item the check holds exactly when the item has options and, with the flag, its id is not a UUID |
| `Validation.MissingOptionsRejected` | src/utils/order.ts:42-44 | a catalog item without options is refused |
| `Validation.UuidIdRejected` | src/utils/order.ts:46-48 | with the flag, an item whose id is a well-formed UUID is refused |
| `Validation.ItemWithAmountRejected` | src/utils/order.ts:67-69 | the JSON of every order line fails the amount check |
| `Validation.VerifyStoreItemIntended` | src/utils/order.ts:22-51 | the corrected check: null throws; it passes exactly when the name is a string, the price a number, description, image and options each absent or of their type, and with the flag the id a UUID |
| `Validation.VerifyStoreItemWithAmountsIntended` | src/utils/order.ts:56-72 | the corrected check passes exactly when the corrected item check passes and `amount` is a number |
| `Validation.IntendedAcceptsCatalogItems` | src/utils/order.ts:42-48 | every catalog item passes the corrected check, with or without options; with the flag exactly when its id is a UUID |
| `Validation.IntendedAcceptsItemWithAmount` | src/utils/order.ts:67-69 | every order line passes the corrected amount check |
| `Validation.VerifiedRequestPassesShapeChecks` | src/utils/order.ts:74-96 | a request passing `verifyOrderRequest` passes method validation, and its items can then fail only on zero quantity, a repeated id or an unknown id |
| `Validation.PairEntriesOnlyFailOnContent` | src/utils/order.ts:138-164 | a list of `[number, string]` pairs fails only on zero quantity, a repeated id or an unknown id |
| `Routes.ValidateItems` | src/routes/order.ts:30-87 | the handler's loop computes the same result, error for error, as the item-list resolution, priced at the sum of its lines |
| `Routes.OrderName` | src/routes/order.ts:123-127 | the first item's name, followed by " 외 n건" where n is the count of the other items written in canonical decimal (digits, no leading zero) that reads back as that count; an empty list throws |
| `Routes.PlaceOrder` | src/routes/order.ts:93-131 | the store changes exactly when the body is shaped and both validations pass, and then by the new pre-order alone; the handler answers exactly when moreover the cart is non-empty, with that pre-order awaiting payment and the widget data with its price, id and name |
| `Routes.EmptyCartLeavesPreOrder` | src/routes/order.ts:108-127 | an empty item list throws after a pre-order priced 0 has been stored |
| `Routes.PlaceOrderChecked` | src/routes/order.ts:93-131 | the corrected handler answers exactly when the body is shaped, both validations pass and the cart is non-empty, with the pre-order made from the validated request, stored awaiting payment; when it fails it stores nothing |
| `Routes.PlaceOrderCheckedAgrees` | src/routes/order.ts:93-131 | the corrected handler answers as the original whenever the original succeeds |
| `Routes.StateAfter` | src/routes/order.ts:199-208 | status DONE leads to WaitingAccept, any other accepted status to WaitingPayment |
| `Routes.Payment` | src/routes/order.ts:136-227 | a failure writes nothing; only a pending order is paid; a wrong amount and then a wrong state fail before the gateway is called; the gateway is called once, with the stored price, exactly when all checks pass; a reply with an error, cancellations or a failed status fails; otherwise the order is promoted or rewritten |
| `Routes.PaymentEffect` | src/routes/order.ts:210-220 | a successful payment keeps the store valid; with DONE the order is found only confirmed, awaiting acceptance; otherwise it stays pending; other ids are unaffected |
| `Routes.PayThenAccept` | src/routes/order.ts:199-220 | a completed payment is followed by a successful acceptance into Done in a valid store |
| `Routes.PayPendingThenAccept` | src/routes/order.ts:158-220 | a pre-order awaiting payment, paid with its own price and a completed reply, is approved once for that price and then accepted into Done in a valid store |
| `Routes.PlacePayAccept` | src/routes/order.ts:93-227 | a body that validates with a non-empty cart is placed, paid with its own price and a completed reply, and accepted into Done, with exactly one approval call for that price |
| `Routes.LookupPendingFirst` | src/routes/order.ts:250-256 | the handler's lookup finds an order exactly when the id is in either collection, and takes the pre-order when the id is pending, the confirmed order otherwise |
| `Routes.LookupOrderIrrelevant` | src/routes/order.ts:250-256 | in a valid store the handler's lookup agrees with `findOrder` |
| `Routes.CancelOrder` | src/routes/order.ts:239-286 | a failure writes nothing; the handler succeeds exactly for an id, an object body and a stored order not yet canceled, which when awaiting acceptance also needs a non-empty string reason and a successful gateway cancellation; the gateway is asked to cancel exactly in that case, with the order's id and the reason; a success deletes a pre-order or rewrites a confirmed order as Canceled |
| `Routes.CancelOrderEffect` | src/routes/order.ts:277-283 | a successful cancel keeps the store valid, removes a pre-order, leaves a confirmed order Canceled with its cancel record untouched, and no other id changes |
| `Logger.Padding` | src/logger.ts:1-9 | the text has the given width or the number's own length, whichever is larger, ends with the number's decimal text and is zeros before it |
| `Logger.PaddingRoundTrip` | src/logger.ts:1-9 | the padded text of a non-negative number reads back as that number |
| `Decimal.IntToStringRoundTrip` | src/logger.ts:2 | the decimal text of any integer reads back as that integer |
| `Decimal.IntToStringInjective` | src/logger.ts:2 | distinct integers have distinct decimal texts |
| `Js.Utf16Length` | src/commands/orders.ts:54 | a string's length counts UTF-16 units: between its character count and twice that, equal on the Basic Multilingual Plane |
| `Js.Utf16LengthChar` | src/commands/orders.ts:54 | a character above U+FFFF counts two units, any other one |
| `Js.Utf16LengthAppend` | src/commands/orders.ts:54 | the length of a concatenation is the sum of the lengths, so a string counts one unit per character plus one per character above U+FFFF |
| `Js.SingletonArrayNumber` | src/routes/order.ts:17-19 | `Number([n])` is `n`, so a one-element array holding a method code is accepted as that method |

## Left out

- The Redis client and every database call: the store is pure maps, and
  writes are atomic and never fail.
- The payment gateway's HTTP traffic: its approval reply and its cancel
  outcome are parameters; network failures and the gateway's
  `getPayment` lookup before cancel are not modelled.
- Order events are recorded as the list a command publishes; the deferred
  dispatch (`setTimeout`), the subscribers, the socket push to clients in
  `accept` and the timer routines are not modelled.
- Dates are integer milliseconds; their ISO text and the clock are inputs
  (`date`, `now`), and `all`/`findByDate` compare those integers.
- Order ids are inputs with a `Fresh` precondition in place of random
  UUID generation.
- Numbers are integers: floating point, `NaN` as a number value, and
  `Number(...)` of text other than an optionally signed run of decimal
  digits (which is NaN here) are not modelled.
- Only the JSON shape of values is modelled: prototype properties,
  `length` of arrays read as a property, and array holes are not.
- The stub handler `POST /order/:orderId/accept` does nothing and is not
  modelled; acceptance is `Orders.Accept`.
- `validatePayMethod` in src/utils/order.ts:98-112 is the same as the one in
  the handler module and is modelled once, as `Validation.ValidatePayMethod`.
- The logger's locale date and time text and its console output; only
  `padding` is modelled.
- The catalog is a map from id to item. No code in this model writes the
  menu, so `WellFormedCatalog` (each item's stored id is its key) is an
  assumption, stated as a precondition of the lemmas that need it; without
  it the duplicate check, which keys on the stored `item.id`, and the
  requested id can differ.
- `getAllOrders`, whose result `Orders.All` takes as its input: nothing ties
  that list to the modelled collections.
- The store's range index is a sorted set scored by time, which yields each
  id once in ascending time order; here it is a list kept in insertion
  order. `findByDate`'s bounds are documented in seconds
  (src/commands/orders.ts:118-119), while the modelled index holds each
  order's date in milliseconds and compares the bounds with that.
- Orders.SortByDateDesc: does not state that orders with equal dates keep
  their relative order, which the engine's stable sort guarantees.
- Routes.Payment: a gateway reply that is not an object (the `!payments`
  guard) is not modelled, since the reply is always a record here.

## Findings

| source | as written | input that shows it | evidently intended | confidence | as-written member | corrected member |
|---|---|---|---|---|---|---|
| src/utils/order.ts:42 | the first operand is `typeof data.options`, a non-empty string and so always truthy; any value whose type is not object fails, including a missing `options` | a catalog item without `options` | `options` may be absent, as `description` and `image` may | high; not executed | `Validation.MissingOptionsRejected` | `Validation.IntendedAcceptsCatalogItems` |
| src/utils/order.ts:46 | with the id flag, an id that IS a valid UUID is refused and any other string passes | an item whose id is `123e4567-e89b-12d3-a456-426614174000` | refuse ids that are not valid UUIDs | medium; not executed | `Validation.UuidIdRejected` | `Validation.VerifyStoreItemIntended` |
| src/utils/order.ts:67 | reads `amounts`, while an order line carries `amount` (src/@types/items.ts:19-21) | any order line, e.g. an item priced 1000 with `amount: 2` | check `amount` | high; not executed | `Validation.ItemWithAmountRejected` | `Validation.IntendedAcceptsItemWithAmount` |
| src/routes/order.ts:111-127 | an empty `items` array passes validation, a pre-order priced 0 is stored, then reading `order.items[0].name` throws and the pre-order stays | body `{ "items": [], "payWith": 100 }` | refuse an empty order before storing anything | high; not executed | `Routes.EmptyCartLeavesPreOrder` | `Routes.PlaceOrderChecked` |
