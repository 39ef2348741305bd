/** The validating order factory (src/Domain/Factories/OrderFactory.cs).

    The fresh `Guid` and `DateTime.UtcNow` the source draws are the
    parameters `orderId` and `now`.  A thrown `ArgumentException` is a
    `Failure` naming the argument that was rejected. */
module OrderFactory {
  import opened Basics
  import opened Text
  import opened Orders

  datatype ArgumentError = InstrumentIdEmpty | PriceNotPositive | QuantityNotPositive

  /** The first check of `CreateLimitOrder` that fails, if any: the
      instrument id, then the price, then the quantity. */
  function LimitOrderError(instrumentId: Option<string>, price: int, quantity: int): (e: Option<ArgumentError>)
    ensures e.None? <==> !IsNullOrWhiteSpace(instrumentId) && price > 0 && quantity > 0
    ensures e == Some(InstrumentIdEmpty) <==> IsNullOrWhiteSpace(instrumentId)
    ensures e == Some(PriceNotPositive) <==> !IsNullOrWhiteSpace(instrumentId) && price <= 0
  {
    if IsNullOrWhiteSpace(instrumentId) then Some(InstrumentIdEmpty)
    else if price <= 0 then Some(PriceNotPositive)
    else if quantity <= 0 then Some(QuantityNotPositive)
    else None
  }

  /** The first check of `CreateMarketOrder` that fails, if any: the
      instrument id, then the quantity.  No price is checked. */
  function MarketOrderError(instrumentId: Option<string>, quantity: int): (e: Option<ArgumentError>)
    ensures e.None? <==> !IsNullOrWhiteSpace(instrumentId) && quantity > 0
    ensures e == Some(InstrumentIdEmpty) <==> IsNullOrWhiteSpace(instrumentId)
    ensures e != Some(PriceNotPositive)
  {
    if IsNullOrWhiteSpace(instrumentId) then Some(InstrumentIdEmpty)
    else if quantity <= 0 then Some(QuantityNotPositive)
    else None
  }

  /** What every order the factory hands out satisfies, and what the
      engine relies on: a named instrument, a positive quantity, a
      positive price for a limit order, and a fresh fill state. */
  predicate FactoryMade(o: Order)
    reads o
  {
    !IsNullOrWhiteSpace(Some(o.instrumentId)) && o.quantity > 0 &&
    (o.orderType == Limit ==> o.price > 0) &&
    o.filledQuantity == 0 && o.status == New
  }

  method CreateLimitOrder(instrumentId: Option<string>, side: OrderSide, price: int, quantity: int,
                          orderId: OrderId, now: Time)
    returns (r: Result<Order, ArgumentError>)
    ensures r.Failure? <==> LimitOrderError(instrumentId, price, quantity).Some?
    ensures r.Failure? ==> Some(r.error) == LimitOrderError(instrumentId, price, quantity)
    ensures r.Success? ==> fresh(r.value) && FactoryMade(r.value)
    ensures r.Success? ==>
      && Some(r.value.instrumentId) == instrumentId && r.value.orderId == orderId
      && r.value.side == side && r.value.orderType == Limit
      && r.value.price == price && r.value.quantity == quantity && r.value.createdAt == now
  {
    if IsNullOrWhiteSpace(instrumentId) {
      return Failure(InstrumentIdEmpty);
    }
    if price <= 0 {
      return Failure(PriceNotPositive);
    }
    if quantity <= 0 {
      return Failure(QuantityNotPositive);
    }
    var order := new Order.Create(orderId, instrumentId.value, side, Limit, price, quantity, now);
    return Success(order);
  }

  method CreateMarketOrder(instrumentId: Option<string>, side: OrderSide, quantity: int,
                           orderId: OrderId, now: Time)
    returns (r: Result<Order, ArgumentError>)
    ensures r.Failure? <==> MarketOrderError(instrumentId, quantity).Some?
    ensures r.Failure? ==> Some(r.error) == MarketOrderError(instrumentId, quantity)
    ensures r.Success? ==> fresh(r.value) && FactoryMade(r.value)
    ensures r.Success? ==>
      && Some(r.value.instrumentId) == instrumentId && r.value.orderId == orderId
      && r.value.side == side && r.value.orderType == Market
      && r.value.price == 0 && r.value.quantity == quantity && r.value.createdAt == now
  {
    if IsNullOrWhiteSpace(instrumentId) {
      return Failure(InstrumentIdEmpty);
    }
    if quantity <= 0 {
      return Failure(QuantityNotPositive);
    }
    var order := new Order.Create(orderId, instrumentId.value, side, Market, 0, quantity, now);
    return Success(order);
  }
}
