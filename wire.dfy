/** The values exchanged between the order-book service and the client: an
    order resting in the book, an executed trade, and the whole-book snapshot
    the client polls. Prices and quantities are non-negative integers. */
module Wire {

  /** A server timestamp: seconds and nanoseconds since the epoch. */
  datatype Time = Time(secsSinceEpoch: nat, nanosSinceEpoch: nat)

  datatype Order = Order(buyOrder: bool, price: nat, quantity: nat, id: nat, timeCreated: Time)

  /** One completed match. */
  datatype Transaction = Transaction(price: nat, quantity: nat, time: Time)

  /** The resting orders of one side, keyed by price. */
  type SideBook = map<nat, seq<Order>>

  /** One full read of the book: counts, both sides, and the trade history
      from oldest to newest. */
  datatype Snapshot = Snapshot(
    totalOrders: nat,
    buyOrders: SideBook,
    sellOrders: SideBook,
    transactions: seq<Transaction>)
}
