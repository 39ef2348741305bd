/** The trade record (src/Domain/Entities/Trade.cs): an immutable value
    built once when two orders match. */
module Trades {
  import opened Orders

  /** A `Guid` trade id. */
  type TradeId = nat

  datatype Trade = Trade(
    tradeId: TradeId,
    buyOrderId: OrderId,
    sellOrderId: OrderId,
    instrumentId: string,
    price: int,
    quantity: int,
    executedAt: Time)
  {
    /** `Trade.Create`.  The fresh `Guid` the source draws is the caller's
        `tradeId`; every other field is the like-named argument. */
    static function Create(tradeId: TradeId, buyOrderId: OrderId, sellOrderId: OrderId,
                           instrumentId: string, price: int, quantity: int, executedAt: Time): (t: Trade)
      ensures t.tradeId == tradeId
      ensures t.buyOrderId == buyOrderId && t.sellOrderId == sellOrderId
      ensures t.instrumentId == instrumentId && t.price == price
      ensures t.quantity == quantity && t.executedAt == executedAt
    {
      Trade(tradeId, buyOrderId, sellOrderId, instrumentId, price, quantity, executedAt)
    }
  }
}
