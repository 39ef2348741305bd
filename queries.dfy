/** The read-only queries of the engine (src/Domain/Services/MatchingEngine.cs):
    finding a resting order by id, aggregating a side into price levels with
    their open quantity, and filtering the trade ledger by instrument. */
module Queries {
  import opened Basics
  import opened Text
  import opened Orders
  import opened Trades
  import opened OrderBooks
  import opened BookViews

  // ------------------------------------------------------------------
  // GetOrder
  // ------------------------------------------------------------------

  /** `FirstOrDefault(o => o.OrderId == id)` over one price level. */
  function FirstWithId(q: seq<Order>, id: OrderId): (r: Option<Order>)
    ensures r.Some? ==> (r.value.orderId == id &&
      exists j :: 0 <= j < |q| && q[j] == r.value && forall k :: 0 <= k < j ==> q[k].orderId != id)
    ensures r.None? <==> forall o :: o in q ==> o.orderId != id
  {
    if q == [] then None
    else if q[0].orderId == id then Some(q[0])
    else
      var r := FirstWithId(q[1..], id);
      assert forall o :: o in q ==> o == q[0] || o in q[1..];
      if r.Some? then
        var j :| 0 <= j < |q[1..]| && q[1..][j] == r.value && forall k :: 0 <= k < j ==> q[1..][k].orderId != id;
        assert q[j + 1] == r.value && forall k :: 0 <= k < j + 1 ==> q[k].orderId != id;
        r
      else r
  }

  /** The search of one side of a book, best level first: the first order
      with the id in the first level that has one. */
  function FindInSide(c: seq<Level<Order>>, id: OrderId): (r: Option<Order>)
    ensures r.Some? ==> r.value in Objects(c) && r.value.orderId == id
    ensures r.None? <==> forall o :: o in Objects(c) ==> o.orderId != id
  {
    if c == [] then None
    else
      ObjectsCons(c);
      ObjectsOne(c[0]);
      match FirstWithId(c[0].queue, id)
      case Some(o) => Some(o)
      case None => FindInSide(c[1..], id)
  }

  // ------------------------------------------------------------------
  // GetOrderBookSnapshot
  // ------------------------------------------------------------------

  /** One entry of a snapshot: a price and the open quantity resting there. */
  datatype PriceQuantity = PriceQuantity(price: int, quantity: int)

  datatype Snapshot = Snapshot(instrumentId: string, bids: seq<PriceQuantity>, asks: seq<PriceQuantity>)

  /** The open quantity of a run of order states. */
  function OpenVolume(q: seq<OrderState>): int
  {
    if q == [] then 0 else q[0].Remaining() + OpenVolume(q[1..])
  }

  /** `Sum(o => o.Quantity - o.FilledQuantity)` over one level, read from
      the orders themselves. */
  function Open(q: seq<Order>): (n: int)
    reads q
    ensures n == OpenVolume(States(q))
  {
    if q == [] then 0
    else
      assert States(q)[1..] == States(q[1..]);
      q[0].quantity - q[0].filledQuantity + Open(q[1..])
  }

  /** `r` lists the levels of `v`: one entry per level, in the same order,
      with the level's price and its open quantity. */
  predicate Lists(r: seq<PriceQuantity>, v: seq<Level<OrderState>>)
  {
    |r| == |v| && forall i :: 0 <= i < |v| ==> r[i].price == v[i].price && r[i].quantity == OpenVolume(v[i].queue)
  }

  /** A side as a snapshot lists it, read from the orders themselves. */
  function Aggregate(c: seq<Level<Order>>): (r: seq<PriceQuantity>)
    reads Objects(c)
    ensures Lists(r, View(c))
  {
    assert forall i, x :: 0 <= i < |c| && x in c[i].queue ==> x in Objects(c);
    seq(|c|, i requires 0 <= i < |c| reads Objects(c) => PriceQuantity(c[i].price, Open(c[i].queue)))
  }

  /** A level of open orders has a positive open quantity. */
  lemma {:induction false} OpenVolumePositive(side: OrderSide, key: string, q: seq<OrderState>, price: int)
    requires |q| > 0
    requires forall j :: 0 <= j < |q| ==> LotOk(side, key, price, q[j])
    ensures OpenVolume(q) > 0
    decreases |q|
  {
    if |q| > 1 {
      OpenVolumePositive(side, key, q[1..], price);
    } else {
      assert q[1..] == [];
    }
    assert LotOk(side, key, price, q[0]);
  }

  /** The listing of a side that keeps the book invariant has its prices
      in the side's priority order (bids descending, asks ascending), each
      once, and every listed quantity is positive. */
  lemma ListedOk(side: OrderSide, key: string, r: seq<PriceQuantity>, v: seq<Level<OrderState>>)
    requires SideOk(side, key, v) && Lists(r, v)
    ensures forall i, j :: 0 <= i < j < |r| ==> Better(side, r[i].price, r[j].price)
    ensures forall i :: 0 <= i < |r| ==> r[i].quantity > 0
  {
    forall i | 0 <= i < |r| ensures r[i].quantity > 0 {
      assert LevelOk(side, key, v[i]);
      OpenVolumePositive(side, key, v[i].queue, v[i].price);
    }
  }

  // ------------------------------------------------------------------
  // GetAllTrades
  // ------------------------------------------------------------------

  /** `Equals(…, StringComparison.OrdinalIgnoreCase)`. */
  predicate SameInstrument(a: string, b: string)
  {
    Key(a) == Key(b)
  }

  /** `Where(t => t.InstrumentId.Equals(id, OrdinalIgnoreCase))`: the trades
      of the instrument, in ledger order. */
  function FilterTrades(ts: seq<Trade>, id: string): (r: seq<Trade>)
    ensures |r| <= |ts|
    ensures forall t :: t in r <==> t in ts && SameInstrument(t.instrumentId, id)
  {
    if ts == [] then []
    else
      assert forall t :: t in ts <==> t == ts[0] || t in ts[1..];
      (if SameInstrument(ts[0].instrumentId, id) then [ts[0]] else []) + FilterTrades(ts[1..], id)
  }

  /** Filtering keeps the ledger's order: the filter of a longer ledger
      extends the filter of its prefix by the filter of what was appended. */
  lemma {:induction false} FilterAppend(a: seq<Trade>, b: seq<Trade>, id: string)
    ensures FilterTrades(a + b, id) == FilterTrades(a, id) + FilterTrades(b, id)
  {
    if a == [] {
      assert a + b == b;
    } else {
      assert (a + b)[0] == a[0];
      assert (a + b)[1..] == a[1..] + b;
      FilterAppend(a[1..], b, id);
    }
  }

  /** Appending trades of one instrument to the ledger extends that
      instrument's filtered ledger by exactly those trades, in order. */
  lemma LedgerFilterExtends(ledger: seq<Trade>, trades: seq<Trade>, id: string)
    requires forall k :: 0 <= k < |trades| ==> SameInstrument(trades[k].instrumentId, id)
    ensures FilterTrades(ledger + trades, id) == FilterTrades(ledger, id) + trades
  {
    FilterAppend(ledger, trades, id);
    FilterAll(trades, id);
  }

  /** Filtering by an instrument whose trades are all there keeps them all. */
  lemma {:induction false} FilterAll(ts: seq<Trade>, id: string)
    requires forall k :: 0 <= k < |ts| ==> SameInstrument(ts[k].instrumentId, id)
    ensures FilterTrades(ts, id) == ts
  {
    if ts != [] {
      FilterAll(ts[1..], id);
    }
  }
}
