/** The HTTP handlers of the order-book service: placing an order and
    reporting what it matched, looking up an order's status, and cancelling.
    The matching engine behind them is not part of this model: what it does
    with an order is an input to the handler (see `EngineOutcome`). */
module Server {
  import opened Wrappers
  import opened Wire

  /** One fill reported back to the client. */
  datatype MatchDetail = MatchDetail(price: nat, quantity: nat, timestamp: Time)

  datatype CreateOrder = CreateOrder(buyOrder: bool, price: nat, quantity: nat)

  datatype CreateOrderResponse = CreateOrderResponse(
    status: string,
    orderId: nat,
    filledQuantity: nat,
    remainingQuantity: nat,
    matches: seq<MatchDetail>)

  datatype CancelOrder = CancelOrder(orderId: nat)

  datatype CancelOrderResponse = CancelOrderResponse(status: string, orderId: nat)

  datatype OrderStatusResponse = OrderStatusResponse(
    orderId: nat,
    status: string,
    currentQuantity: nat,
    isBuy: bool,
    price: nat)

  /** The panic message of `unwrap()` on an engine error. */
  const UnwrapPanic: string := "called `Result::unwrap()` on an `Err` value"

  // ---------------------------------------------------------------------
  // Pure derivations of the create response
  // ---------------------------------------------------------------------

  /** `get_transactions_from(start)`: the log entries from index `start` on. */
  function TransactionsFrom(log: seq<Transaction>, start: nat): (r: seq<Transaction>)
    ensures start <= |log| ==> |r| == |log| - start && forall i :: 0 <= i < |r| ==> r[i] == log[start + i]
    ensures start > |log| ==> r == []
  {
    if start <= |log| then log[start..] else []
  }

  /** A transaction as a fill: price, quantity and time copied over. */
  function ToMatch(tx: Transaction): (m: MatchDetail)
    ensures m.price == tx.price && m.quantity == tx.quantity && m.timestamp == tx.time
  {
    MatchDetail(tx.price, tx.quantity, tx.time)
  }

  /** The new transactions mapped one by one to fills. */
  function Matches(txs: seq<Transaction>): (ms: seq<MatchDetail>)
    ensures |ms| == |txs|
    ensures forall i :: 0 <= i < |ms| ==>
      ms[i].price == txs[i].price && ms[i].quantity == txs[i].quantity && ms[i].timestamp == txs[i].time
  {
    seq(|txs|, i requires 0 <= i < |txs| => ToMatch(txs[i]))
  }

  /** The sum of the fills' quantities: 0 without fills, and never below
      any single fill. */
  function FilledQuantity(matches: seq<MatchDetail>): (total: nat)
    ensures matches == [] ==> total == 0
    ensures forall i :: 0 <= i < |matches| ==> matches[i].quantity <= total
  {
    if matches == [] then 0
    else
      var rest := FilledQuantity(matches[1..]);
      assert forall i :: 1 <= i < |matches| ==> matches[i] == matches[1..][i - 1];
      matches[0].quantity + rest
  }

  /** The filled quantity is additive: appending fills adds their
      quantities. */
  lemma {:induction false} FilledQuantityAppend(a: seq<MatchDetail>, b: seq<MatchDetail>)
    ensures FilledQuantity(a + b) == FilledQuantity(a) + FilledQuantity(b)
  {
    if a == [] {
      assert a + b == b;
    } else {
      assert (a + b)[1..] == a[1..] + b;
      FilledQuantityAppend(a[1..], b);
    }
  }

  /** `a.saturating_sub(b)` on unsigned integers. */
  function SaturatingSub(a: nat, b: nat): (r: nat)
    ensures r <= a
    ensures b <= a ==> r + b == a
    ensures b > a ==> r == 0
  {
    if b <= a then a - b else 0
  }

  /** The body `post_orders` answers with once the order is placed: status
      "ok" with the placed id, one fill per new transaction, a filled
      quantity that is the sum of the fills, and a remaining quantity that
      never exceeds the order and adds up with the filled one to the order
      whenever the fills fit in it. */
  function CreateResponse(orderId: nat, originalQuantity: nat, newTransactions: seq<Transaction>): (r: CreateOrderResponse)
    ensures r.status == "ok" && r.orderId == orderId
    ensures r.matches == Matches(newTransactions)
    ensures r.filledQuantity == FilledQuantity(r.matches)
    ensures r.remainingQuantity <= originalQuantity
    ensures r.filledQuantity <= originalQuantity ==> r.filledQuantity + r.remainingQuantity == originalQuantity
    ensures r.filledQuantity >= originalQuantity ==> r.remainingQuantity == 0
  {
    var matches := Matches(newTransactions);
    var filled := FilledQuantity(matches);
    CreateOrderResponse("ok", orderId, filled, SaturatingSub(originalQuantity, filled), matches)
  }

  /** An order that matched nothing rests whole: nothing filled, all of it
      remaining. */
  lemma UnmatchedOrderRests(orderId: nat, originalQuantity: nat)
    ensures CreateResponse(orderId, originalQuantity, []) ==
      CreateOrderResponse("ok", orderId, 0, originalQuantity, [])
  {
  }

  /** One more fill adds its quantity to the filled amount. */
  lemma {:induction false} FilledGrowsByFill(txs: seq<Transaction>, t: Transaction)
    ensures FilledQuantity(Matches(txs + [t])) == FilledQuantity(Matches(txs)) + t.quantity
  {
    assert Matches(txs + [t]) == Matches(txs) + [ToMatch(t)];
    FilledQuantityAppend(Matches(txs), [ToMatch(t)]);
    assert FilledQuantity([ToMatch(t)]) == t.quantity + FilledQuantity([]);
  }

  // ---------------------------------------------------------------------
  // The shared order book
  // ---------------------------------------------------------------------

  /** What the matching engine did when asked to place one order: the id it
      returned (or its error), both sides' orders afterwards, and the
      transactions it appended to the log. */
  datatype EngineOutcome = EngineOutcome(
    placed: Result<nat>,
    buyOrders: map<nat, Order>,
    sellOrders: map<nat, Order>,
    newTransactions: seq<Transaction>)

  /** What the engine did when asked to cancel one order: its answer, which
      the handler ignores, and both sides afterwards. */
  datatype CancelOutcome = CancelOutcome(
    cancelled: Result<nat>,
    buyOrders: map<nat, Order>,
    sellOrders: map<nat, Order>)

  /** The order book the handlers share: the orders of each side by id (what
      `get_buy_order` and `get_sell_order` find) and the transaction log. */
  class OrderBook {
    var buyOrders: map<nat, Order>
    var sellOrders: map<nat, Order>
    var transactions: seq<Transaction>

    /** A book with the given contents. The service seeds its book with
        `build_order_book`, which is not part of this model; this
        constructor stands for whatever book that produced. */
    constructor (buyOrders: map<nat, Order>, sellOrders: map<nat, Order>, transactions: seq<Transaction>)
      ensures this.buyOrders == buyOrders && this.sellOrders == sellOrders
      ensures this.transactions == transactions
    {
      this.buyOrders := buyOrders;
      this.sellOrders := sellOrders;
      this.transactions := transactions;
    }

    /** `post_orders`. `engine(buy, price, quantity)` stands for `ob.buy` or
        `ob.sell` on this book, chosen by the payload's side. An engine error
        makes `unwrap` panic. Otherwise the reply reports the transactions
        the engine appended after the count taken before placing. */
    method PostOrders(payload: CreateOrder, engine: (bool, nat, nat) -> EngineOutcome)
      returns (reply: Result<CreateOrderResponse>)
      modifies this
      ensures var outcome := engine(payload.buyOrder, payload.price, payload.quantity);
        && buyOrders == outcome.buyOrders
        && sellOrders == outcome.sellOrders
        && transactions == old(transactions) + outcome.newTransactions
        && reply == match outcome.placed
                    case Err(_) => Err(UnwrapPanic)
                    case Ok(id) => Ok(CreateResponse(id, payload.quantity, outcome.newTransactions))
    {
      var originalQuantity := payload.quantity;
      var transactionsBefore := |transactions|;
      var outcome := engine(payload.buyOrder, payload.price, originalQuantity);
      buyOrders := outcome.buyOrders;
      sellOrders := outcome.sellOrders;
      transactions := transactions + outcome.newTransactions;
      if outcome.placed.Err? {
        return Err(UnwrapPanic);
      }
      var orderId := outcome.placed.value;
      var newTransactions := TransactionsFrom(transactions, transactionsBefore);
      assert newTransactions == outcome.newTransactions;
      var matches := Matches(newTransactions);
      var filledQuantity := FilledQuantity(matches);
      var remainingQuantity := SaturatingSub(originalQuantity, filledQuantity);
      reply := Ok(CreateOrderResponse("ok", orderId, filledQuantity, remainingQuantity, matches));
    }

    /** `cancel_order`: whatever the engine answers, the reply is "ok" with
        the requested id. */
    method CancelOrder(payload: CancelOrder, engine: nat -> CancelOutcome)
      returns (reply: CancelOrderResponse)
      modifies this
      ensures buyOrders == engine(payload.orderId).buyOrders
      ensures sellOrders == engine(payload.orderId).sellOrders
      ensures transactions == old(transactions)
      ensures reply == CancelOrderResponse("ok", payload.orderId)
    {
      var outcome := engine(payload.orderId);
      buyOrders := outcome.buyOrders;
      sellOrders := outcome.sellOrders;
      reply := CancelOrderResponse("ok", payload.orderId);
    }

    /** `get_order_status`: the buy side is searched first, then the sell
        side; a found order is "open" while it has quantity left and
        "filled" otherwise. */
    function GetOrderStatus(id: nat): (r: OrderStatusResponse)
      reads this
      ensures r.orderId == id
      ensures r.isBuy <==> id in buyOrders
      ensures r.status == "not_found" <==> id !in buyOrders && id !in sellOrders
      ensures r.status == "open" <==>
        (id in buyOrders && buyOrders[id].quantity > 0) ||
        (id !in buyOrders && id in sellOrders && sellOrders[id].quantity > 0)
      ensures r.status == "open" || r.status == "filled" || r.status == "not_found"
      ensures id in buyOrders ==>
        r.currentQuantity == buyOrders[id].quantity && r.price == buyOrders[id].price
      ensures id !in buyOrders && id in sellOrders ==>
        r.currentQuantity == sellOrders[id].quantity && r.price == sellOrders[id].price
      ensures id !in buyOrders && id !in sellOrders ==> r.currentQuantity == 0 && r.price == 0
    {
      if id in buyOrders then
        var order := buyOrders[id];
        OrderStatusResponse(id, if order.quantity > 0 then "open" else "filled", order.quantity, true, order.price)
      else if id in sellOrders then
        var order := sellOrders[id];
        OrderStatusResponse(id, if order.quantity > 0 then "open" else "filled", order.quantity, false, order.price)
      else
        OrderStatusResponse(id, "not_found", 0, false, 0)
    }
  }
}
