# simple_clob: the client's order-book views and the service's order handlers

This project models the parts of the simple_clob system that compute
something.

On the browser client:
- the order-book ladder, which turns the resting orders of each side of a
  polled snapshot into price levels sorted by descending price, then
  derives the best bid, best ask and spread;
- the set of price levels the user has expanded, keyed `buy-<price>` /
  `sell-<price>`;
- the trade feed, which shows the most recent trades first, at most
  `limit` of them;
- the order form, which parses its two text fields, refuses a non-positive
  price or quantity before any request, and stores the reply.

On the service, the derivations in the HTTP handlers:
- the fills and the filled and remaining quantities that `post_orders`
  reports;
- the classification `get_order_status` makes;
- the echo that `cancel_order` returns.

Modules, one per source file, plus three shared ones:

| file | module | models |
|---|---|---|
| `ladder.dfy` | `Ladder` | `frontend/clob-frontend/src/components/OrderBookLadder.tsx` |
| `match_history.dfy` | `MatchHistory` | `frontend/clob-frontend/src/components/MatchHistory.tsx` |
| `order_form.dfy` | `OrderForm` | `frontend/clob-frontend/src/components/CreateOrderForm.tsx` |
| `server.dfy` | `Server` | `backend/src/bin/axum_bin.rs` |
| `wire.dfy` | `Wire` | the order, transaction and snapshot values both sides exchange |
| `decimal.dfy` | `Decimal` | JavaScript's integer-to-text rendering and `Number(text)` |
| `wrappers.dfy` | `Wrappers` | `Option` and `Result` |

Prices and quantities are non-negative integers (`nat`), as the service's
`u64`/`u128` fields are. A snapshot side, a `Record<string, Order[]>` in the
client, is a `map<nat, seq<Order>>`, so the client's `Number(price)` on a key
is the identity.

The component state that React keeps in `useState` is a class with one field
per state variable. The setters are methods that replace that field and say
what it becomes. The derivations are functions, and the lemmas beside them
state their properties.

Network calls are parameters. A fetch is an `Option<Snapshot>`, where None
means the request or the decoding failed. A `createOrder` call is a
`Result`. The matching engine the handlers call (`ob.buy`, `ob.sell`,
`ob.cancel`) is not in the modelled source. A handler therefore receives
what the engine did: the id it returned, both sides afterwards, and the
transactions it appended to the log.

`CreateOrderForm.tsx` only stores the reply: it shows no fill notification,
starts no auto-clear timer, clears no field and bumps no refresh counter, and
the model does the same.

The comment above the sell aggregation (OrderBookLadder.tsx:70) says
"ascending". The code sorts sell levels in descending order, as it does buy
levels, and the model does the same.

`OrderStatusResponse` documents a "partial" status, but `get_order_status`
never produces it. The model proves the status is always "open", "filled" or
"not_found".

## Model

| member | source | states |
|---|---|---|
| `Ladder.Aggregate` | frontend/clob-frontend/src/components/OrderBookLadder.tsx:71-88 | A side gets exactly one level per price key, so there are as many levels as keys. Each level holds that key's order list unchanged, its total is the sum of the orders' quantities and its count is the list's length. Levels are strictly descending by price, and every key of the side is the price of some level. |
| `Ladder.UnsortedLevels` | frontend/clob-frontend/src/components/OrderBookLadder.tsx:71-77 | Before sorting, there is one level per key, holding that key's orders with their total and count. The levels' prices are the keys in the ascending order `Object.entries` gives, so no two levels share a price. |
| `Ladder.AscendingKeys` | frontend/clob-frontend/src/components/OrderBookLadder.tsx:71 | `Object.entries` lists every integer-like key exactly once, in ascending order. |
| `Ladder.SortByPriceDescending` | frontend/clob-frontend/src/components/OrderBookLadder.tsx:78 | The comparator sort's result is ordered by descending price and is a permutation of its input. |
| `Ladder.InsertByPrice` | frontend/clob-frontend/src/components/OrderBookLadder.tsx:78 | One insertion step keeps the order descending and adds exactly the inserted level. |
| `Ladder.SortStrictlyDescending` | frontend/clob-frontend/src/components/OrderBookLadder.tsx:88 | When prices are distinct, the sorted levels are in strictly descending order, so no price appears twice. |
| `Ladder.InsertByPriceStrict` | frontend/clob-frontend/src/components/OrderBookLadder.tsx:88 | Inserting a level whose price is new keeps the order strict. |
| `Ladder.TotalQuantityAppend` | frontend/clob-frontend/src/components/OrderBookLadder.tsx:74 | The `reduce` sum of quantities is additive over concatenation. |
| `Ladder.TotalQuantity` | frontend/clob-frontend/src/components/OrderBookLadder.tsx:74-84 | A level's total (the `reduce` at lines 74 and 84) is 0 for no orders and at least the quantity of each of its orders. |
| `Ladder.BestBidIsHighestBid` | frontend/clob-frontend/src/components/OrderBookLadder.tsx:91 | The best bid is the first buy level's price. That is the highest buy price in the book, or 0 when the buy side is empty. |
| `Ladder.BestAskIsLowestAsk` | frontend/clob-frontend/src/components/OrderBookLadder.tsx:92 | The best ask is the last sell level's price. That is the lowest sell price in the book, or 0 when the sell side is empty. |
| `Ladder.BestBid` | frontend/clob-frontend/src/components/OrderBookLadder.tsx:91 | With no buy levels the best bid is 0. When the levels are in descending order, no level is priced above it. |
| `Ladder.BestAsk` | frontend/clob-frontend/src/components/OrderBookLadder.tsx:92 | With no sell levels the best ask is 0. When the levels are in descending order, no level is priced below it. |
| `Ladder.Derive` | frontend/clob-frontend/src/components/OrderBookLadder.tsx:71-93 | The levels of each side are that side's aggregated levels (`Aggregate`), one per price key. The best bid is 0 with no buy orders, and otherwise a buy key at or above every buy key. The best ask is 0 with no sell orders, and otherwise a sell key at or below every sell key. The spread is the spread of those two. |
| `Ladder.Spread` | frontend/clob-frontend/src/components/OrderBookLadder.tsx:93 | The spread is ask minus bid when both are non-zero, and 0 otherwise. |
| `Ladder.SpreadOfSnapshot` | frontend/clob-frontend/src/components/OrderBookLadder.tsx:91-93 | For any snapshot, the spread is 0 when either side is empty. When both sides hold orders and neither has a key of price 0, the spread is the best ask minus the best bid. |
| `Ladder.EmptyBook` | frontend/clob-frontend/src/components/OrderBookLadder.tsx:91-93 | With both sides empty there are no levels, so each side shows its "no orders" row, and best bid, best ask and spread are all 0. |
| `Ladder.TwoLevelSellSide` | frontend/clob-frontend/src/components/OrderBookLadder.tsx:71-78 | Sells of 3 and 4 at 101 and of 5 at 99 give the levels [101 (7, 2 orders), 99 (5, 1 order)], and the best ask is 99. |
| `Ladder.TwoKeyLevels` | frontend/clob-frontend/src/components/OrderBookLadder.tsx:71-78 | A side with two keys puts the higher key's level first. |
| `Ladder.LevelKeyInjective` | frontend/clob-frontend/src/components/OrderBookLadder.tsx:209 | The keys `buy-<price>` and `sell-<price>` are collision-free. Equal keys mean the same side and the same price, so buy and sell keys never meet. |
| `Ladder.LevelKey` | frontend/clob-frontend/src/components/OrderBookLadder.tsx:122-132 | A level's key (sell side here, buy side at lines 199-209) starts with 'b' exactly for the buy side, and after the side's prefix and its '-' comes the rendered price. |
| `Ladder.Toggled` | frontend/clob-frontend/src/components/OrderBookLadder.tsx:54-64 | The toggled set flips membership of the given key and keeps every other key as it was. |
| `Ladder.ToggleTwice` | frontend/clob-frontend/src/components/OrderBookLadder.tsx:54-64 | Toggling the same key twice restores the original set. |
| `Ladder.ToggleLeavesOtherLevels` | frontend/clob-frontend/src/components/OrderBookLadder.tsx:132 | Toggling one level's key leaves the expansion of every other level, on either side, unchanged. |
| `Ladder.OrderBookLadder.constructor` | frontend/clob-frontend/src/components/OrderBookLadder.tsx:35-36 | The component starts with no snapshot and no expanded levels. |
| `Ladder.OrderBookLadder.FetchData` | frontend/clob-frontend/src/components/OrderBookLadder.tsx:38-46 | A successful poll replaces the snapshot. A failed poll keeps the previous one. The expansion set is untouched either way. |
| `Ladder.OrderBookLadder.ToggleExpand` | frontend/clob-frontend/src/components/OrderBookLadder.tsx:54-64 | The expansion set is replaced by the toggled copy, and the snapshot is untouched. |
| `Ladder.OrderBookLadder.IsExpanded` | frontend/clob-frontend/src/components/OrderBookLadder.tsx:138-141 | (Sell side here, buy side at lines 215-218.) A level shows its orders and the up arrow exactly when its key is in the expansion set. |
| `Ladder.OrderBookLadder.ToggleLevel` | frontend/clob-frontend/src/components/OrderBookLadder.tsx:132-141 | A click on a level row (sell side here, buy side at lines 209-218) flips that level between shown and hidden. Every other level, on either side, stays as it was, and so does the snapshot. |
| `Ladder.OrderBookLadder.View` | frontend/clob-frontend/src/components/OrderBookLadder.tsx:66-93 | The loading state shows exactly while there is no snapshot. Otherwise the ladder derived from the snapshot is shown. |
| `MatchHistory.Reversed` | frontend/clob-frontend/src/components/MatchHistory.tsx:35 | The reversal has the same length, and element i is the input's element counted i places back from its last. |
| `MatchHistory.SliceEnd` | frontend/clob-frontend/src/components/MatchHistory.tsx:35 | The end index of `slice(0, limit)` never passes the list's length. |
| `MatchHistory.RecentTransactions` | frontend/clob-frontend/src/components/MatchHistory.tsx:35 | The feed has min(limit, n) entries, n being the history's length, for a non-negative limit. A negative limit counts back from the end, as `slice` does. Entry i is the history's element i places back from its last, so the newest trade is first. |
| `MatchHistory.EmptyHistory` | frontend/clob-frontend/src/components/MatchHistory.tsx:59-62 | An empty history gives an empty feed, which selects the "No transactions yet" row. |
| `MatchHistory.NewTradeOnTop` | frontend/clob-frontend/src/components/MatchHistory.tsx:35 | A new trade appears on top, followed by the old history's feed with a limit one smaller. When the old feed was full, that drops its oldest entry; otherwise it is the whole old feed. |
| `MatchHistory.RecentCopy` | frontend/clob-frontend/src/components/MatchHistory.tsx:35 | Copying into a new array, reversing it in place and slicing yields the feed. The caller's array is not modified, since the method has no modifies clause. |
| `MatchHistory.ReverseInPlace` | frontend/clob-frontend/src/components/MatchHistory.tsx:35 | The array is reversed in place: its new contents are the old contents back to front. |
| `MatchHistory.TradeFeed.constructor` | frontend/clob-frontend/src/components/MatchHistory.tsx:26-27 | `limit` defaults to 15 when it is not given, and the feed starts empty. |
| `MatchHistory.TradeFeed.FetchData` | frontend/clob-frontend/src/components/MatchHistory.tsx:29-40 | A successful poll replaces the shown trades with the feed of the new snapshot. A failed poll leaves them unchanged. |
| `MatchHistory.TradeFeed.ShowsEmptyState` | frontend/clob-frontend/src/components/MatchHistory.tsx:59 | The "No transactions yet" row shows exactly when the feed is empty. A successful poll of an empty history therefore shows it (see `FetchData`). |
| `OrderForm.FieldValue` | frontend/clob-frontend/src/components/CreateOrderForm.tsx:18-19 | An empty field counts as 0. |
| `OrderForm.AtMostZero` | frontend/clob-frontend/src/components/CreateOrderForm.tsx:21 | JavaScript's `<= 0` is false for NaN and is the ordinary comparison for a number. |
| `OrderForm.SubmitDisabled` | frontend/clob-frontend/src/components/CreateOrderForm.tsx:70 | The button is disabled only when a field is empty, and an empty field reads as 0. An enabled button means both fields hold text. |
| `OrderForm.SubmitRequest` | frontend/clob-frontend/src/components/CreateOrderForm.tsx:18-27 | Nothing is sent exactly when the parsed price or quantity is at most 0. Otherwise the request carries the current side flag and both parsed values. |
| `OrderForm.DisabledNeverSends` | frontend/clob-frontend/src/components/CreateOrderForm.tsx:70 | While the submit button is disabled (a field is empty), the handler would not send anything either. |
| `OrderForm.PositiveFieldsAreSent` | frontend/clob-frontend/src/components/CreateOrderForm.tsx:21-27 | Positive whole numbers in both fields are sent unchanged, with the current side. |
| `OrderForm.NegativeFieldIsRefused` | frontend/clob-frontend/src/components/CreateOrderForm.tsx:21-24 | A negative number in either field is refused before any call. |
| `OrderForm.NaNPassesGuard` | frontend/clob-frontend/src/components/CreateOrderForm.tsx:21-27 | Text that is not a number parses to NaN. NaN is not `<= 0`, so the guard lets it through and it is sent. |
| `OrderForm.UnsignedLiteralGuard` | frontend/clob-frontend/src/components/CreateOrderForm.tsx:18-24 | A field starting with a digit or a '.' is refused exactly when it parses and every digit before its exponent is '0', or when the other field is refused. This holds in either field. |
| `OrderForm.SpellingDecides` | frontend/clob-frontend/src/components/CreateOrderForm.tsx:18-24 | For digits with an optional fraction in the price field, the guard refuses exactly when every digit is '0' or the quantity is refused. |
| `OrderForm.ZeroSpellingsRefused` | frontend/clob-frontend/src/components/CreateOrderForm.tsx:18-24 | "0.0" and "00" are refused whatever the quantity. |
| `OrderForm.FractionBelowOneSent` | frontend/clob-frontend/src/components/CreateOrderForm.tsx:18-27 | "0.5" is sent whenever the quantity passes the guard. |
| `OrderForm.LeadingZerosSent` | frontend/clob-frontend/src/components/CreateOrderForm.tsx:18-27 | "007" is sent whenever the quantity passes the guard. |
| `OrderForm.ZeroExponentRefused` | frontend/clob-frontend/src/components/CreateOrderForm.tsx:18-24 | "0e5" is 0 and is refused whatever the quantity. |
| `OrderForm.NegativeExponentRefused` | frontend/clob-frontend/src/components/CreateOrderForm.tsx:18-24 | "-1e2" is -100 and is refused whatever the quantity. |
| `OrderForm.CreateOrderForm.constructor` | frontend/clob-frontend/src/components/CreateOrderForm.tsx:11-14 | The form starts with empty fields, the buy side selected and no stored reply. |
| `OrderForm.CreateOrderForm.SetPrice` | frontend/clob-frontend/src/components/CreateOrderForm.tsx:55 | The price field holds what was typed. |
| `OrderForm.CreateOrderForm.SetQuantity` | frontend/clob-frontend/src/components/CreateOrderForm.tsx:65 | The quantity field holds what was typed. |
| `OrderForm.CreateOrderForm.ClickBuy` | frontend/clob-frontend/src/components/CreateOrderForm.tsx:38-39 | The Buy button selects the buy side. |
| `OrderForm.CreateOrderForm.ClickSell` | frontend/clob-frontend/src/components/CreateOrderForm.tsx:43-44 | The Sell button selects the sell side. |
| `OrderForm.CreateOrderForm.HandleSubmit` | frontend/clob-frontend/src/components/CreateOrderForm.tsx:16-32 | A refused submission makes no call and leaves the reply unchanged. Otherwise the request carries the flag and the parsed values. The reply is stored on success and left unchanged on error. |
| `OrderForm.CreateOrderForm.IsSubmitDisabled` | frontend/clob-frontend/src/components/CreateOrderForm.tsx:70 | The button is disabled exactly when a field is empty, and then the handler would not send anything. |
| `OrderForm.CreateOrderForm.ClickSideAndSubmit` | frontend/clob-frontend/src/components/CreateOrderForm.tsx:16-44 | A click on Buy or Sell selects that side and also submits the form. Its request is the one the guard allows for the fields and the clicked side. Positive whole numbers in both fields send exactly that order, on the clicked side. |
| `Decimal.NatToDecimal` | frontend/clob-frontend/src/components/OrderBookLadder.tsx:132 | A price renders as a non-empty string of digits with no leading zero. |
| `Decimal.DecimalRoundTrip` | frontend/clob-frontend/src/components/OrderBookLadder.tsx:132 | Reading a rendered price back as digits gives the price. |
| `Decimal.NatToDecimalInjective` | frontend/clob-frontend/src/components/OrderBookLadder.tsx:209 | Distinct prices render as distinct strings. |
| `Decimal.JsNumberOf` | frontend/clob-frontend/src/components/CreateOrderForm.tsx:18-19 | `Number("")` is 0. A leading '-' never gives a positive value. Text starting with a digit or '.' that parses is never negative, and is 0 exactly when every digit before its exponent is '0'. |
| `Decimal.ParseUnsigned` | frontend/clob-frontend/src/components/CreateOrderForm.tsx:18-19 | An unsigned literal parses to a non-negative number, and empty text is NaN. A parsed value is 0 exactly when every digit before the exponent marker is '0'. |
| `Decimal.SignificandValue` | frontend/clob-frontend/src/components/CreateOrderForm.tsx:18-19 | A significand (digits, an optional '.' and fraction, at least one digit) is non-negative, and 0 exactly when all its digits are '0'. |
| `Decimal.NumberOfExponentForm` | frontend/clob-frontend/src/components/CreateOrderForm.tsx:18-19 | `Number` on m, 'e' and k, all rendered, gives m times ten to the k. |
| `Decimal.NumberOfNegativeExponentForm` | frontend/clob-frontend/src/components/CreateOrderForm.tsx:18-19 | `Number` on m, 'e-' and k gives m divided by ten to the k. |
| `Decimal.NumberOfDecimal` | frontend/clob-frontend/src/components/CreateOrderForm.tsx:18-19 | `Number` on a rendered whole number gives that number. |
| `Decimal.NumberOfNegatedDecimal` | frontend/clob-frontend/src/components/CreateOrderForm.tsx:18-19 | `Number` on a minus sign followed by a rendered whole number gives its negation. |
| `Server.TransactionsFrom` | backend/src/bin/axum_bin.rs:105 | The log from the given index on, element by element. |
| `Server.Matches` | backend/src/bin/axum_bin.rs:105-110 | There is one fill per transaction, in order, with price, quantity and time copied field for field. |
| `Server.ToMatch` | backend/src/bin/axum_bin.rs:106-110 | A fill copies the transaction's price, quantity and time. |
| `Server.FilledQuantity` | backend/src/bin/axum_bin.rs:113 | No fills sum to 0, and the sum is at least each fill's quantity. |
| `Server.FilledQuantityAppend` | backend/src/bin/axum_bin.rs:113 | The summed fill quantity is additive over concatenation. |
| `Server.FilledGrowsByFill` | backend/src/bin/axum_bin.rs:113 | One more transaction adds its quantity to the filled amount. |
| `Server.SaturatingSub` | backend/src/bin/axum_bin.rs:114 | The result is at most the order's quantity. It is the exact difference when the fills fit, and 0 when they do not. |
| `Server.CreateResponse` | backend/src/bin/axum_bin.rs:113-122 | The create response has status "ok" and the placed id. Its fills are the mapped transactions. Remaining never exceeds the order. Filled plus remaining equals the order whenever filled fits, and remaining is 0 otherwise. |
| `Server.UnmatchedOrderRests` | backend/src/bin/axum_bin.rs:113-122 | An order with no fills reports 0 filled and its whole quantity remaining. |
| `Server.OrderBook.PostOrders` | backend/src/bin/axum_bin.rs:90-123 | The engine is called with the payload's side, price and quantity. An engine error panics at `unwrap`. Otherwise the reply lists exactly the transactions appended after the count taken before the call. The log grows by exactly those transactions. |
| `Server.OrderBook.CancelOrder` | backend/src/bin/axum_bin.rs:125-130 | The reply is always status "ok" with the requested id, whatever the engine answers. The log is unchanged. |
| `Server.OrderBook.GetOrderStatus` | backend/src/bin/axum_bin.rs:132-165 | The buy side is searched before the sell side. `is_buy` holds iff the id is a buy order. "not_found" is returned iff the id is on neither side, with quantity and price 0. "open" is returned iff the found order has quantity left. The status is always "open", "filled" or "not_found". |

## Left out

- HTTP transport and JSON decoding (`fetch`, `res.json()`, `api.ts`). A fetch is modelled as success with a decoded value, or failure, and nothing in between.
- Polling and effects: the two-second `setInterval`, its `clearInterval`, and the re-run of the effect when `refreshTrigger` or `limit` changes. These are timer and framework scheduling. The order in which overlapping poll responses resolve is therefore not modelled.
- Rendering: JSX, styles, `toFixed(2)` on the spread (a float format) and `toLocaleTimeString` on trade times (locale and `Date`).
- The server's `main`, router, CORS layer, TCP listener (axum_bin.rs:54-79) and `home` and `clob_stats` handlers, which only serve data. The `Arc<RwLock>` locking is concurrency; each handler is modelled as one atomic step.
- `build_order_book` (axum_bin.rs:167-184), which seeds the book from a random generator with float parameters.
- The matching engine's `buy`, `sell`, `cancel` and `get_transactions_from`, which are not part of this model. The handlers take the engine's outcome as input. `TransactionsFrom` assumes the log is a plain vector read from an index. `PostOrders` assumes the engine only appends to the log.
- `CancelButton.tsx` (a `Number(id)` wrapper around `cancelOrder`) and `App.tsx` (composition only). The `ClobStats` component is not part of this model.
- Decimal.JsNumberOf: models `Number(text)` on an optional sign, a significand and an optional `e`/`E` exponent with an optional sign. Surrounding whitespace, `Infinity` and hexadecimal are read as NaN; a `type="number"` input hands such text over as "". Values are exact reals, so the rounding of doubles is not modelled: a literal too small for a double (below about 5e-324) is 0 to JavaScript and refused, while the model keeps it positive and sends it, and a literal too large is Infinity to JavaScript but finite here.
- Decimal.NatToDecimal: does not model JavaScript's exponent notation for numbers of 10^21 and above.
- Ladder.Aggregate: prices, quantities and sums are exact integers. The client's IEEE doubles lose precision above 2^53, and that rounding is not modelled.
- Server.SaturatingSub: values are unbounded. The `u64`/`u128` ranges are not enforced. The u128 `sum()` of fill quantities cannot overflow here, while in Rust it would panic or wrap.
- Ladder.AscendingKeys: JavaScript lists integer-like keys in ascending order only below 2^32 - 1. Larger keys keep insertion order. The descending sort that follows makes the result the same either way.
- The Buy and Sell buttons have no `type` attribute, so in a browser a click also submits the form. `ClickSideAndSubmit` composes the click (`ClickBuy` / `ClickSell`) with the submission (`HandleSubmit`) in that order; the separate steps are kept as well. Pressing Enter in a field also submits through the form's default button, the first one, which is Buy (CreateOrderForm.tsx:38-40): that path sets the buy side and sends a buy order even after Sell was picked, and it is not modelled.
- Server.OrderBook.CancelOrder: the engine's outcome carries no log, so the model assumes `ob.cancel` appends no transaction (axum_bin.rs:125-130).
- OrderForm.CreateOrderForm.HandleSubmit: one atomic step. `handleSubmit` awaits `createOrder` (CreateOrderForm.tsx:27), so submissions can overlap; then the stored reply is whichever resolves last, and that interleaving is not modelled.
