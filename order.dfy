/** The order entity and its lifecycle (src/Domain/Entities/Order.cs).

    An order is a shared mutable object: the caller that submitted it and
    the order book that rests it hold the same reference, and `Fill` and
    `Cancel` update it in place.  Its identity fields never change after
    creation, so they are `const` here; only the fill state is mutable. */
module Orders {

  /** A `Guid` order id; uniqueness is the caller's business. */
  type OrderId = nat
  /** A `DateTime` timestamp, in ticks. */
  type Time = int

  datatype OrderSide = Buy | Sell
  datatype OrderType = Limit | Market
  datatype OrderStatus = New | PartiallyFilled | Filled | Canceled

  function Opposite(side: OrderSide): OrderSide
  {
    if side == Buy then Sell else Buy
  }

  /** The mutable part of an order at one moment, together with the order
      it belongs to (whose identity fields are constant). */
  datatype OrderState = OrderState(order: Order, filled: int, status: OrderStatus)
  {
    /** `Quantity - FilledQuantity`. */
    function Remaining(): int
    {
      order.quantity - filled
    }

    /** The state an order has while it rests in a book: some quantity is
        still open and it is neither filled nor canceled. */
    predicate Live()
    {
      0 <= filled < order.quantity && (status == New || status == PartiallyFilled)
    }
  }

  /** The state `Fill(q)` leaves behind: `q` more units filled, and the
      status recomputed from the filled quantity alone. */
  function AfterFill(s: OrderState, q: int): OrderState
  {
    var filled := s.filled + q;
    OrderState(s.order, filled, if filled >= s.order.quantity then Filled else PartiallyFilled)
  }

  /** Filling never touches the order's identity, adds exactly `q`, and
      the status is Filled exactly when nothing remains open. */
  lemma FillAccounting(s: OrderState, q: int)
    ensures AfterFill(s, q).order == s.order
    ensures AfterFill(s, q).filled == s.filled + q
    ensures AfterFill(s, q).Remaining() == s.Remaining() - q
    ensures AfterFill(s, q).status == Filled <==> AfterFill(s, q).Remaining() <= 0
    ensures AfterFill(s, q).status != New && AfterFill(s, q).status != Canceled
  {
  }

  /** A fill of at most the open quantity keeps `0 <= filled <= quantity`,
      and a partial one leaves a live order behind. */
  lemma FillWithinRemaining(s: OrderState, q: int)
    requires 0 <= s.filled <= s.order.quantity
    requires 0 < q <= s.Remaining()
    ensures 0 < AfterFill(s, q).filled <= s.order.quantity
    ensures AfterFill(s, q).status == Filled <==> q == s.Remaining()
    ensures AfterFill(s, q).status == PartiallyFilled <==> AfterFill(s, q).Live()
  {
  }

  class Order {
    const orderId: OrderId
    const instrumentId: string
    const side: OrderSide
    const orderType: OrderType
    /** 0 for a market order. */
    const price: int
    const quantity: int
    const createdAt: Time
    var filledQuantity: int
    var status: OrderStatus

    /** `Order.Create`: every field from the arguments, nothing filled yet. */
    constructor Create(orderId: OrderId, instrumentId: string, side: OrderSide, orderType: OrderType,
                       price: int, quantity: int, createdAt: Time)
      ensures this.orderId == orderId && this.instrumentId == instrumentId && this.side == side
      ensures this.orderType == orderType && this.price == price && this.quantity == quantity
      ensures this.createdAt == createdAt
      ensures filledQuantity == 0 && status == New
    {
      this.orderId := orderId;
      this.instrumentId := instrumentId;
      this.side := side;
      this.orderType := orderType;
      this.price := price;
      this.quantity := quantity;
      this.createdAt := createdAt;
      filledQuantity := 0;
      status := New;
    }

    function State(): OrderState
      reads this
    {
      OrderState(this, filledQuantity, status)
    }

    /** `Fill`: adds `fillQuantity` to the filled quantity and sets the
        status to Filled when the order is complete, PartiallyFilled
        otherwise.  The engine only ever fills by at most the open
        quantity (see `FillWithinRemaining`). */
    method Fill(fillQuantity: int)
      modifies this
      ensures State() == AfterFill(old(State()), fillQuantity)
      ensures filledQuantity == old(filledQuantity) + fillQuantity
      ensures status == (if filledQuantity >= quantity then Filled else PartiallyFilled)
    {
      filledQuantity := filledQuantity + fillQuantity;
      if filledQuantity >= quantity {
        status := Filled;
      } else {
        status := PartiallyFilled;
      }
    }

    /** `Cancel`: the status becomes Canceled whatever it was; the filled
        quantity is kept. */
    method Cancel()
      modifies this
      ensures status == Canceled
      ensures filledQuantity == old(filledQuantity)
    {
      status := Canceled;
    }
  }
}
