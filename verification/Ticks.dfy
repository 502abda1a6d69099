/**
 The market-data ticks of one symbol, as the feed delivers them once decoded.
 Prices and quantities are exact numbers, instants are counts of clock ticks.
 */
module Ticks {
  type Price = real
  type Qty = real
  type OrderId = string
  type Time = int

  /** The earliest instant of the system clock, to which a reset book returns. */
  const TIME_MIN: Time := -0x8000_0000_0000_0000

  /** The instant a default-constructed book carries. */
  const EPOCH: Time := 0

  datatype Side = Buy | Sell

  datatype AddTick = AddTick(id: OrderId, price: Price, qty: Qty, time: Time, side: Side)

  datatype Tick =
    | Add(order: AddTick)
    | Remove(id: OrderId, time: Time, side: Side)
    | Execute(id: OrderId, price: Price, qty: Qty, time: Time, side: Side)
    | Snapshot(bids: seq<AddTick>, offers: seq<AddTick>)

  function Later(x: Time, y: Time): Time {
    if x < y then y else x
  }
}
