/** The matching engine (the `MatchingEngine` class of
    src/Domain/Services/MatchingEngine.cs).

    The engine owns one order book per instrument, in a dictionary whose
    keys compare case-insensitively; here the map is keyed by `Key` of the
    instrument id, which is what such a dictionary looks keys up by.  It
    also keeps the ledger of every trade it has executed.

    `Valid` is the invariant every public operation keeps: each book sits
    under its own instrument's key and both of its sides keep the side
    invariant `SideOk`.  The fresh `Guid`s and `DateTime.UtcNow` the source
    draws are parameters: `Process` numbers its trades from `tradeIdBase`
    and stamps them all with `now`. */
module Engine {
  import opened Basics
  import opened Text
  import opened Orders
  import opened Trades
  import opened OrderBooks
  import opened BookViews
  import opened Matching
  import opened Queries

  /** The dictionary key of an order's instrument. */
  function BookKey(o: Order): string
  {
    Key(o.instrumentId)
  }

  /** The orders resting in a book, on either side. */
  function BookObjects(b: OrderBook): set<Order>
    reads b
  {
    Objects(b.bids) + Objects(b.asks)
  }

  /** Every order of `before` that `after` no longer holds has been filled
      completely: how the makers a sweep takes off a side end. */
  ghost predicate LeftFilled(before: set<Order>, after: set<Order>)
    reads before
  {
    forall o :: o in before && o !in after ==> o.filledQuantity == o.quantity && o.status == Filled
  }

  /** The invariant of either matching loop, `side` being the taker's side:
      the opposing side keeps the side invariant and holds only orders of
      `before`, those of `before` it no longer holds are filled, and
      sweeping it with the taker as it is now ends the sweep that began on
      `v0` and `t0` and has made the executions `done` so far. */
  ghost predicate Sweeping(book: OrderBook, side: OrderSide, key: string, before: set<Order>, taker: Order,
                           v0: seq<Level<OrderState>>, t0: OrderState, done: seq<Execution>)
    reads book, taker, before, Objects(book.Side(Opposite(side)))
  {
    SideOk(Opposite(side), key, View(book.Side(Opposite(side)))) &&
    Objects(book.Side(Opposite(side))) <= before && taker !in before &&
    LeftFilled(before, Objects(book.Side(Opposite(side)))) &&
    NonEmptyLevels(v0) && NonEmptyLevels(View(book.Side(Opposite(side)))) &&
    Resumes(side, v0, t0, done, View(book.Side(Opposite(side))), taker.State())
  }

  /** A book that sits under `key` and keeps the side invariant on both
      sides. */
  ghost predicate BookOk(key: string, b: OrderBook)
    reads b, BookObjects(b)
  {
    Key(b.instrumentId) == key && SideOk(Buy, key, View(b.bids)) && SideOk(Sell, key, View(b.asks))
  }

  /** Every order of a book that keeps the invariant is on the side its
      `side` names and belongs to the book's instrument. */
  lemma BookObjectsPlaced(key: string, b: OrderBook)
    requires BookOk(key, b)
    ensures forall o :: o in Objects(b.bids) ==> o.side == Buy && BookKey(o) == key
    ensures forall o :: o in Objects(b.asks) ==> o.side == Sell && BookKey(o) == key
  {
    ObjectsOfSide(Buy, key, b.bids);
    ObjectsOfSide(Sell, key, b.asks);
  }

  /** The trades one `Process` call records all belong to the incoming
      order's instrument, so `GetAllTrades` for that instrument afterwards
      is its earlier answer followed by exactly those trades. */
  lemma ProcessedTradesListed(side: OrderSide, t: Order, es: seq<Execution>, ts: seq<Trade>,
                              tradeIdBase: nat, now: Time, ledger: seq<Trade>)
    requires TradesFaithful(side, t, es, ts, tradeIdBase, now)
    ensures FilterTrades(ledger + ts, t.instrumentId) == FilterTrades(ledger, t.instrumentId) + ts
  {
    forall k | 0 <= k < |ts| ensures SameInstrument(ts[k].instrumentId, t.instrumentId) {
      assert TradeFaithful(side, t, es[k], ts[k], tradeIdBase + k, now);
    }
    LedgerFilterExtends(ledger, ts, t.instrumentId);
  }

  class MatchingEngine {
    /** `_orderBooks`. */
    var orderBooks: map<string, OrderBook>
    /** `_executedTrades`, in execution order. */
    var executedTrades: seq<Trade>

    constructor ()
      ensures Valid()
      ensures orderBooks == map[] && executedTrades == []
    {
      orderBooks := map[];
      executedTrades := [];
    }

    /** Every order resting in some book. */
    ghost function Resting(): set<Order>
      reads this`orderBooks, orderBooks.Values
    {
      set k, o | k in orderBooks && o in BookObjects(orderBooks[k]) :: o
    }

    ghost predicate Valid()
      reads this`orderBooks, orderBooks.Values, Resting()
    {
      forall k :: k in orderBooks ==> BookOk(k, orderBooks[k])
    }

    /** The view of one side of the book under `key`; no book reads as an
        empty side. */
    ghost function SideView(key: string, side: OrderSide): seq<Level<OrderState>>
      reads this`orderBooks, orderBooks.Values, if key in orderBooks then Objects(orderBooks[key].Side(side)) else {}
    {
      if key in orderBooks then View(orderBooks[key].Side(side)) else []
    }

    /** An order is in no book but the one of its own instrument. */
    lemma OnlyInOwnBook(o: Order)
      requires Valid()
      ensures forall k :: k in orderBooks && k != BookKey(o) ==> o !in BookObjects(orderBooks[k])
    {
      forall k | k in orderBooks && k != BookKey(o) ensures o !in BookObjects(orderBooks[k]) {
        BookObjectsPlaced(k, orderBooks[k]);
      }
    }

    /** Where a resting order is: in the book of its instrument, on its own
        side, and still open. */
    lemma Locate(o: Order)
      requires Valid() && o in Resting()
      ensures BookKey(o) in orderBooks
      ensures o in Objects(orderBooks[BookKey(o)].Side(o.side))
      ensures o.State().Live()
    {
      var k :| k in orderBooks && o in BookObjects(orderBooks[k]);
      var b := orderBooks[k];
      BookObjectsPlaced(k, b);
      var c := b.Side(o.side);
      var i :| 0 <= i < |c| && o in c[i].queue;
      var j :| 0 <= j < |c[i].queue| && c[i].queue[j] == o;
      assert LevelOk(o.side, k, View(c)[i]);
      assert LotOk(o.side, k, c[i].price, View(c)[i].queue[j]);
    }

    /** The engine stays valid when only the book under `key` and its own
        orders changed, and that book still keeps the invariant: the other
        books, and the orders resting in them, are as they were. */
    twostate lemma ValidKept(key: string)
      requires old(Valid())
      requires orderBooks == old(orderBooks)
      requires key in orderBooks && BookOk(key, orderBooks[key])
      requires forall b :: b in orderBooks.Values && b != orderBooks[key] ==> unchanged(b)
      requires forall o :: o in old(Resting()) && o !in old(BookObjects(orderBooks[key])) ==> unchanged(o)
      ensures Valid()
    {
      var mine := orderBooks[key];
      assert old(BookOk(key, mine));
      ObjectsOfStates(Buy, key, old(mine.bids), old(View(mine.bids)));
      ObjectsOfStates(Sell, key, old(mine.asks), old(View(mine.asks)));
      forall k | k in orderBooks && k != key
        ensures BookOk(k, orderBooks[k])
      {
        var b := orderBooks[k];
        assert old(BookOk(k, b));
        assert b in orderBooks.Values && b != mine;
        assert b.bids == old(b.bids) && b.asks == old(b.asks);
        ObjectsOfStates(Buy, k, b.bids, old(View(b.bids)));
        ObjectsOfStates(Sell, k, b.asks, old(View(b.asks)));
        forall o | o in old(BookObjects(b))
          ensures unchanged(o)
        {
          assert o in old(Resting());
        }
        assert old(BookObjects(b)) == Objects(b.bids) + Objects(b.asks);
        ViewUnchanged(b.bids);
        ViewUnchanged(b.asks);
      }
    }

    // ----------------------------------------------------------------
    // Process
    // ----------------------------------------------------------------

    /** The first step of `Process`: the book of the instrument, created
        empty under its key when there is none.  No side view changes and
        no order starts resting. */
    method BookFor(instrumentId: string, ghost side: OrderSide) returns (book: OrderBook)
      requires Valid()
      modifies this`orderBooks
      ensures Valid()
      ensures orderBooks == old(orderBooks)[Key(instrumentId) := book]
      ensures Key(instrumentId) in old(orderBooks) ==> book == old(orderBooks[Key(instrumentId)])
      ensures Key(instrumentId) !in old(orderBooks) ==>
        fresh(book) && book.instrumentId == instrumentId && book.bids == [] && book.asks == []
      ensures View(book.Side(side)) == old(SideView(Key(instrumentId), side))
      ensures View(book.Side(Opposite(side))) == old(SideView(Key(instrumentId), Opposite(side)))
      ensures Resting() <= old(Resting())
      ensures BookObjects(book) == if Key(instrumentId) in old(orderBooks) then old(BookObjects(orderBooks[Key(instrumentId)])) else {}
    {
      var key := Key(instrumentId);
      if key !in orderBooks {
        var created := new OrderBook(instrumentId);
        ghost var before := orderBooks;
        orderBooks := orderBooks[key := created];
        assert BookObjects(created) == {};
        forall k | k in orderBooks
          ensures BookOk(k, orderBooks[k]) && BookObjects(orderBooks[k]) <= old(Resting())
        {
          if k != key {
            assert k in before && orderBooks[k] == before[k];
          }
        }
      }
      book := orderBooks[key];
    }

    /** `GetOrder`: searches the books one after another, each one bids
        first and then asks, best level first, for an order with the id.
        The dictionary's enumeration order is not modelled: the next book
        searched is any one not searched yet. */
    method GetOrder(id: OrderId) returns (r: Option<Order>)
      ensures r.Some? ==> r.value in Resting() && r.value.orderId == id
      ensures r.None? <==> forall o :: o in Resting() ==> o.orderId != id
    {
      var keys := orderBooks.Keys;
      while keys != {}
        invariant keys <= orderBooks.Keys
        invariant forall k, o :: k in orderBooks && k !in keys && o in BookObjects(orderBooks[k]) ==> o.orderId != id
        decreases keys
      {
        var k :| k in keys;
        var book := orderBooks[k];
        var found := FindInSide(book.bids, id);
        if found.None? {
          found := FindInSide(book.asks, id);
        }
        if found.Some? {
          assert found.value in BookObjects(book);
          return found;
        }
        keys := keys - {k};
      }
      return None;
    }

    /** `CancelOrder`: looks the order up with `GetOrder`; when it is found
        (and not already filled or canceled, which a resting order never
        is) it is canceled and taken out of its book, and no other resting
        order changes.  The order it cancels is returned as a ghost result;
        where it sat is stated by `CancelResting`. */
    method CancelOrder(id: OrderId) returns (ghost canceled: Option<Order>)
      requires Valid()
      modifies orderBooks.Values, Resting()
      ensures Valid()
      ensures canceled.None? <==> forall o :: o in old(Resting()) ==> o.orderId != id
      ensures canceled.None? ==> unchanged(orderBooks.Values) && unchanged(old(Resting()))
      ensures canceled.Some? ==> canceled.value in old(Resting()) && canceled.value.orderId == id
      ensures canceled.Some? ==> canceled.value.status == Canceled && canceled.value.filledQuantity == old(canceled.value.filledQuantity)
      ensures canceled.Some? ==> Resting() == old(Resting()) - {canceled.value}
      ensures canceled.Some? ==> unchanged(old(Resting()) - {canceled.value})
    {
      var found := GetOrder(id);
      Untouched();
      if found.None? {
        return None;
      }
      Locate(found.value);
      ghost var i, j := CancelResting(found.value);
      canceled := found;
    }

    /** `CancelOrder` once `GetOrder` has found the order: unless it is
        already filled or canceled (which a resting order never is), mark it
        canceled with `order.Cancel()` and take it out of its book with
        `RemoveOrderFromBook`.  The order sat at entry `j` of level `i` of
        its side; that side loses exactly that entry (and the level with it
        once empty, see `RemoveAtSpec`), the other side and every other
        resting order are untouched, and the engine stays valid. */
    method CancelResting(order: Order) returns (ghost i: nat, ghost j: nat)
      requires Valid() && order in Resting()
      modifies order, orderBooks[BookKey(order)]
      ensures Valid()
      ensures order.status == Canceled && order.filledQuantity == old(order.filledQuantity)
      ensures Resting() == old(Resting()) - {order}
      ensures unchanged(old(Resting()) - {order})
      ensures BookKey(order) in orderBooks
      ensures i < |old(SideView(BookKey(order), order.side))| && j < |old(SideView(BookKey(order), order.side))[i].queue|
      ensures old(SideView(BookKey(order), order.side))[i].queue[j].order == order
      ensures SideView(BookKey(order), order.side) == RemoveAt(old(SideView(BookKey(order), order.side)), i, j)
      ensures SideView(BookKey(order), Opposite(order.side)) == old(SideView(BookKey(order), Opposite(order.side)))
    {
      Locate(order);
      if order.status == Filled || order.status == Canceled {
        assert false;
        return;
      }
      OnlyInOwnBook(order);
      i, j := Position(orderBooks[BookKey(order)].Side(order.side), order);
      CancelAt(order, i, j);
    }

    /** The cancellation of a resting order once it is located at level `i`,
        position `j` of its side in its own book (and in no other book). */
    method CancelAt(order: Order, ghost i: nat, ghost j: nat)
      requires Valid() && BookKey(order) in orderBooks
      requires i < |orderBooks[BookKey(order)].Side(order.side)|
      requires j < |orderBooks[BookKey(order)].Side(order.side)[i].queue|
      requires orderBooks[BookKey(order)].Side(order.side)[i].queue[j] == order
      requires forall k :: k in orderBooks && k != BookKey(order) ==> order !in BookObjects(orderBooks[k])
      modifies order, orderBooks[BookKey(order)]
      ensures Valid()
      ensures order.status == Canceled && order.filledQuantity == old(order.filledQuantity)
      ensures Resting() == old(Resting()) - {order}
      ensures SideView(BookKey(order), order.side) == RemoveAt(old(SideView(BookKey(order), order.side)), i, j)
      ensures SideView(BookKey(order), Opposite(order.side)) == old(SideView(BookKey(order), Opposite(order.side)))
    {
      var key := BookKey(order);
      var book := orderBooks[key];
      assert BookOk(key, book);
      assert order in book.Side(order.side)[i].queue;
      CancelInBook(book, order, i, j);
      assert unchanged(this);
      ValidKept(key);
      RestingLoses(order);
    }

    /** `CancelResting` within the order's own book: the order is canceled
        and removed, its level goes with it once empty, and the book keeps
        the invariant. */
    method CancelInBook(book: OrderBook, order: Order, ghost i: nat, ghost j: nat)
      requires BookKey(order) in orderBooks && orderBooks[BookKey(order)] == book
      requires BookOk(BookKey(order), book)
      requires i < |book.Side(order.side)| && j < |book.Side(order.side)[i].queue| && book.Side(order.side)[i].queue[j] == order
      modifies order, book
      ensures BookOk(BookKey(order), book)
      ensures BookObjects(book) == old(BookObjects(book)) - {order}
      ensures order.status == Canceled && order.filledQuantity == old(order.filledQuantity)
      ensures View(book.Side(order.side)) == RemoveAt(old(View(book.Side(order.side))), i, j)
      ensures View(book.Side(Opposite(order.side))) == old(View(book.Side(Opposite(order.side))))
    {
      ghost var key := BookKey(order);
      ghost var c := book.Side(order.side);
      ghost var other := book.Side(Opposite(order.side));
      BookObjectsPlaced(key, book);
      RemoveResting(order.side, key, c, i, j);
      assert order !in Objects(other);
      assert BookObjects(book) == Objects(c) + Objects(other);
      order.Cancel();
      RemoveOrderFromBook(order);
      assert BookObjects(book) == Objects(RemoveAt(c, i, j)) + Objects(other);
      ViewUnchanged(RemoveAt(c, i, j));
      ViewUnchanged(other);
    }

    /** `RemoveOrderFromBook`: in the book of the order's instrument, if
        there is one, the order's side loses the order as `RemoveOrder`
        says (nothing happens when its price has no level). */
    method RemoveOrderFromBook(order: Order)
      modifies if BookKey(order) in orderBooks then {orderBooks[BookKey(order)]} else {}
      ensures BookKey(order) in orderBooks ==>
        orderBooks[BookKey(order)].Side(order.side) == RemoveOrder(old(orderBooks[BookKey(order)].Side(order.side)), order)
      ensures BookKey(order) in orderBooks ==>
        orderBooks[BookKey(order)].Side(Opposite(order.side)) == old(orderBooks[BookKey(order)].Side(Opposite(order.side)))
    {
      var key := BookKey(order);
      if key !in orderBooks {
        return;
      }
      var book := orderBooks[key];
      if order.side == Buy {
        book.bids := RemoveOrder(book.bids, order);
      } else {
        book.asks := RemoveOrder(book.asks, order);
      }
    }

    /** A step that changed neither the engine, nor its books, nor a
        resting order (such as the `GetOrder` inside `CancelOrder`) keeps
        the engine valid and the resting orders as they were. */
    twostate lemma Untouched()
      requires old(Valid())
      requires unchanged(this) && forall b :: b in old(orderBooks.Values) ==> unchanged(b)
      requires forall o :: o in old(Resting()) ==> unchanged(o)
      ensures Valid() && Resting() == old(Resting())
    {
      forall k | k in orderBooks ensures BookObjects(orderBooks[k]) == old(BookObjects(orderBooks[k])) && BookOk(k, orderBooks[k]) {
        var b := orderBooks[k];
        assert b in old(orderBooks.Values);
        assert b.bids == old(b.bids) && b.asks == old(b.asks);
        assert old(BookOk(k, b));
        forall x | x in Objects(b.bids) || x in Objects(b.asks) ensures unchanged(x) {
          assert x in old(BookObjects(orderBooks[k]));
          assert x in old(Resting());
        }
        ViewUnchanged(b.bids);
        ViewUnchanged(b.asks);
      }
    }

    // ----------------------------------------------------------------
    // Snapshot and ledger
    // ----------------------------------------------------------------

    /** `GetOrderBookSnapshot`: nothing (`null`) for an instrument without a
        book; otherwise the instrument id as it was passed in and, for each
        side in the book's own order, one entry per price level with the
        level's price and the open quantity of its orders. */
    function GetOrderBookSnapshot(instrumentId: string): (r: Option<Snapshot>)
      reads this`orderBooks, orderBooks.Values
      reads if Key(instrumentId) in orderBooks then BookObjects(orderBooks[Key(instrumentId)]) else {}
      ensures r.None? <==> Key(instrumentId) !in orderBooks
      ensures r.Some? ==> r.value.instrumentId == instrumentId
      ensures r.Some? ==> Lists(r.value.bids, SideView(Key(instrumentId), Buy))
      ensures r.Some? ==> Lists(r.value.asks, SideView(Key(instrumentId), Sell))
    {
      var key := Key(instrumentId);
      if key !in orderBooks then None
      else
        var book := orderBooks[key];
        Some(Snapshot(instrumentId, Aggregate(book.bids), Aggregate(book.asks)))
    }

    /** The snapshot of a valid engine lists bids from the highest price
        down and asks from the lowest price up, each price once, and only
        levels with a positive open quantity. */
    lemma SnapshotOrdered(instrumentId: string)
      requires Valid()
      ensures var r := GetOrderBookSnapshot(instrumentId);
        r.Some? ==>
          && (forall i, j :: 0 <= i < j < |r.value.bids| ==> r.value.bids[i].price > r.value.bids[j].price)
          && (forall i, j :: 0 <= i < j < |r.value.asks| ==> r.value.asks[i].price < r.value.asks[j].price)
          && (forall i :: 0 <= i < |r.value.bids| ==> r.value.bids[i].quantity > 0)
          && (forall i :: 0 <= i < |r.value.asks| ==> r.value.asks[i].quantity > 0)
    {
      var key := Key(instrumentId);
      var r := GetOrderBookSnapshot(instrumentId);
      if r.Some? {
        assert BookOk(key, orderBooks[key]);
        ListedOk(Buy, key, r.value.bids, SideView(key, Buy));
        ListedOk(Sell, key, r.value.asks, SideView(key, Sell));
      }
    }

    /** `GetAllTrades`: the whole ledger when no instrument is given (null,
        empty or blank), otherwise the trades of that instrument, compared
        case-insensitively, in execution order. */
    function GetAllTrades(instrumentId: Option<string>): (r: seq<Trade>)
      reads this`executedTrades
      ensures IsNullOrWhiteSpace(instrumentId) ==> r == executedTrades
      ensures !IsNullOrWhiteSpace(instrumentId) ==>
        forall t :: t in r <==> t in executedTrades && SameInstrument(t.instrumentId, instrumentId.value)
    {
      if IsNullOrWhiteSpace(instrumentId) then executedTrades
      else FilterTrades(executedTrades, instrumentId.value)
    }

    /** When the book of `o`'s instrument lost `o` and no other book
        changed, the resting orders are the old ones but `o`. */
    twostate lemma RestingLoses(o: Order)
      requires old(Valid())
      requires orderBooks == old(orderBooks) && BookKey(o) in orderBooks
      requires forall k :: k in orderBooks && k != BookKey(o) ==> o !in old(BookObjects(orderBooks[k]))
      requires BookObjects(orderBooks[BookKey(o)]) == old(BookObjects(orderBooks[BookKey(o)])) - {o}
      requires forall b :: b in orderBooks.Values && b != orderBooks[BookKey(o)] ==> unchanged(b)
      ensures Resting() == old(Resting()) - {o}
    {
      var key := BookKey(o);
      forall x | x in Resting() ensures x in old(Resting()) && x != o {
        var k :| k in orderBooks && x in BookObjects(orderBooks[k]);
        if k != key {
          var b := orderBooks[k];
          assert old(BookOk(k, b)) && old(BookOk(key, orderBooks[key]));
          assert b in orderBooks.Values && b != orderBooks[key];
          assert x in old(BookObjects(b));
        }
      }
      forall x | x in old(Resting()) && x != o ensures x in Resting() {
        var k :| k in orderBooks && x in old(BookObjects(orderBooks[k]));
        if k != key {
          var b := orderBooks[k];
          assert old(BookOk(k, b)) && old(BookOk(key, orderBooks[key]));
          assert b in orderBooks.Values && b != orderBooks[key];
        }
        assert x in BookObjects(orderBooks[k]);
      }
    }

    /** `Process`: finds or creates the book of the incoming order's
        instrument, sweeps the opposing side with the order (the loop the
        model calls `Sweep`), records the trades in the ledger and rests the
        order on its own side if it still `Rests`.  Only the book of the
        order's instrument, its orders and the incoming order change (the
        `modifies` clause); every other book is as it was. */
    method Process(incoming: Order, tradeIdBase: nat, now: Time)
      returns (trades: seq<Trade>, ghost book: OrderBook, ghost r: SweepResult)
      requires Valid()
      requires incoming !in Resting()
      requires 0 <= incoming.filledQuantity
      modifies this, incoming
      modifies if BookKey(incoming) in orderBooks then {orderBooks[BookKey(incoming)]} + BookObjects(orderBooks[BookKey(incoming)]) else {}
      ensures Valid()
      ensures orderBooks == old(orderBooks)[BookKey(incoming) := book]
      ensures BookKey(incoming) in old(orderBooks) ==> book == old(orderBooks[BookKey(incoming)])
      ensures BookKey(incoming) !in old(orderBooks) ==> fresh(book) && book.instrumentId == incoming.instrumentId
      ensures r == Sweep(incoming.side, old(SideView(BookKey(incoming), Opposite(incoming.side))), old(incoming.State()))
      ensures View(book.Side(Opposite(incoming.side))) == r.levels
      ensures incoming.State() == r.taker
      ensures View(book.Side(incoming.side)) ==
        if Rests(r.taker) then Insert(incoming.side, old(SideView(BookKey(incoming), incoming.side)), incoming.price, r.taker)
        else old(SideView(BookKey(incoming), incoming.side))
      ensures trades == TradesFor(incoming.side, incoming, r.executions, tradeIdBase, now)
      ensures executedTrades == old(executedTrades) + trades
      ensures BookKey(incoming) in old(orderBooks) ==>
        LeftFilled(old(BookObjects(orderBooks[BookKey(incoming)])), BookObjects(book))
    {
      var found := BookFor(incoming.instrumentId, incoming.side);
      ghost var before := BookObjects(found);
      trades, r := Match(found, incoming, tradeIdBase, now);
      assert LeftFilled(before, BookObjects(found));
      label matched:
      Record(trades);
      ViewUnchanged@matched(found.bids);
      ViewUnchanged@matched(found.asks);
      Rest(found, incoming, before);
      book := found;
    }

    /** `_executedTrades.AddRange(trades)`: the ledger grows by the trades,
        in order, and nothing else changes. */
    method Record(trades: seq<Trade>)
      requires Valid()
      modifies this`executedTrades
      ensures Valid()
      ensures executedTrades == old(executedTrades) + trades
    {
      executedTrades := executedTrades + trades;
    }

    /** Lines 36-44 of `Process` on the engine: the sweep of `MatchOnBook`
        over the order's own book, which leaves the engine valid and the
        order still outside the book. */
    method Match(book: OrderBook, incoming: Order, tradeIdBase: nat, now: Time) returns (trades: seq<Trade>, ghost r: SweepResult)
      requires Valid()
      requires BookKey(incoming) in orderBooks && orderBooks[BookKey(incoming)] == book
      requires incoming !in Resting()
      modifies book, incoming, BookObjects(book)
      ensures Valid()
      ensures incoming !in BookObjects(book)
      ensures r == Sweep(incoming.side, old(View(book.Side(Opposite(incoming.side)))), old(incoming.State()))
      ensures View(book.Side(Opposite(incoming.side))) == r.levels
      ensures incoming.State() == r.taker
      ensures incoming.filledQuantity >= old(incoming.filledQuantity)
      ensures View(book.Side(incoming.side)) == old(View(book.Side(incoming.side)))
      ensures trades == TradesFor(incoming.side, incoming, r.executions, tradeIdBase, now)
      ensures LeftFilled(old(BookObjects(book)), BookObjects(book))
    {
      var key := BookKey(incoming);
      assert BookOk(key, book) && incoming !in BookObjects(book);
      trades, r := MatchOnBook(book, incoming, tradeIdBase, now);
      assert unchanged(this);
      ValidKept(key);
    }

    /** Lines 49-55 of `Process` on the engine: `RestOnBook` over the
        order's own book, which leaves the engine valid. */
    method Rest(book: OrderBook, incoming: Order, ghost before: set<Order>)
      requires Valid()
      requires BookKey(incoming) in orderBooks && orderBooks[BookKey(incoming)] == book
      requires incoming !in BookObjects(book)
      requires 0 <= incoming.filledQuantity
      requires LeftFilled(before, BookObjects(book))
      modifies book
      ensures Valid()
      ensures View(book.Side(incoming.side)) ==
        if Rests(incoming.State()) then Insert(incoming.side, old(View(book.Side(incoming.side))), incoming.price, incoming.State())
        else old(View(book.Side(incoming.side)))
      ensures View(book.Side(Opposite(incoming.side))) == old(View(book.Side(Opposite(incoming.side))))
      ensures LeftFilled(before, BookObjects(book))
    {
      var key := BookKey(incoming);
      assert BookOk(key, book);
      RestOnBook(book, incoming);
      assert unchanged(this);
      ValidKept(key);
    }

    /** The matching half of `Process`: `MatchBuyOrder` for a buy,
        `MatchSellOrder` for a sell.  The opposing side ends as `Sweep` says
        and keeps the side invariant; the order's own side is untouched. */
    method MatchOnBook(book: OrderBook, incoming: Order, tradeIdBase: nat, now: Time) returns (trades: seq<Trade>, ghost r: SweepResult)
      requires BookOk(BookKey(incoming), book)
      requires incoming !in BookObjects(book)
      modifies book, incoming, BookObjects(book)
      ensures r == Sweep(incoming.side, old(View(book.Side(Opposite(incoming.side)))), old(incoming.State()))
      ensures View(book.Side(Opposite(incoming.side))) == r.levels
      ensures incoming.State() == r.taker
      ensures incoming.filledQuantity >= old(incoming.filledQuantity)
      ensures trades == TradesFor(incoming.side, incoming, r.executions, tradeIdBase, now)
      ensures SideOk(Opposite(incoming.side), BookKey(incoming), View(book.Side(Opposite(incoming.side))))
      ensures book.Side(incoming.side) == old(book.Side(incoming.side))
      ensures View(book.Side(incoming.side)) == old(View(book.Side(incoming.side)))
      ensures BookObjects(book) <= old(BookObjects(book))
      ensures LeftFilled(old(BookObjects(book)), BookObjects(book))
      ensures BookOk(BookKey(incoming), book)
    {
      ghost var side := incoming.side;
      ghost var ownSide := book.Side(side);
      BookObjectsPlaced(BookKey(incoming), book);
      r := Sweep(side, View(book.Side(Opposite(side))), incoming.State());
      SweepConserves(side, BookKey(incoming), View(book.Side(Opposite(side))), incoming.State());
      if incoming.side == Buy {
        trades := MatchBuyOrder(incoming, book, tradeIdBase, now);
      } else {
        trades := MatchSellOrder(incoming, book, tradeIdBase, now);
      }
      ViewUnchanged(ownSide);
    }

    /** The resting half of `Process`: the order rests on its own side as
        `RestOnSide` says, the opposing side is untouched and the book keeps
        the invariant. */
    method RestOnBook(book: OrderBook, incoming: Order)
      requires BookOk(BookKey(incoming), book)
      requires incoming !in BookObjects(book)
      requires 0 <= incoming.filledQuantity
      modifies book
      ensures View(book.Side(incoming.side)) ==
        if Rests(incoming.State()) then Insert(incoming.side, old(View(book.Side(incoming.side))), incoming.price, incoming.State())
        else old(View(book.Side(incoming.side)))
      ensures View(book.Side(Opposite(incoming.side))) == old(View(book.Side(Opposite(incoming.side))))
      ensures old(BookObjects(book)) <= BookObjects(book)
      ensures BookOk(BookKey(incoming), book)
    {
      ghost var oppSide := book.Side(Opposite(incoming.side));
      RestOnSide(book, incoming);
      ViewUnchanged(oppSide);
    }

    /** Lines 49-55 of `Process`: `AddOrder` when the order still has
        quantity open and is neither canceled nor filled.  The own side keeps
        the side invariant and the opposing side is untouched. */
    method RestOnSide(book: OrderBook, incoming: Order)
      requires SideOk(incoming.side, BookKey(incoming), View(book.Side(incoming.side)))
      requires incoming !in Objects(book.Side(incoming.side))
      requires 0 <= incoming.filledQuantity
      modifies book
      ensures View(book.Side(incoming.side)) ==
        if Rests(incoming.State()) then Insert(incoming.side, old(View(book.Side(incoming.side))), incoming.price, incoming.State())
        else old(View(book.Side(incoming.side)))
      ensures SideOk(incoming.side, BookKey(incoming), View(book.Side(incoming.side)))
      ensures book.Side(Opposite(incoming.side)) == old(book.Side(Opposite(incoming.side)))
      ensures old(Objects(book.Side(incoming.side))) <= Objects(book.Side(incoming.side))
    {
      if incoming.quantity > incoming.filledQuantity && incoming.status != Canceled && incoming.status != Filled {
        ghost var side := incoming.side;
        ghost var ownSide := book.Side(side);
        assert LotOk(side, BookKey(incoming), incoming.price, incoming.State());
        NotInView(ownSide, incoming);
        SideOkInsert(side, BookKey(incoming), View(ownSide), incoming.State());
        ObjectsInsert(side, ownSide, incoming.price, incoming);
        label before:
        book.AddOrder(incoming);
        ViewUnchanged@before(ownSide);
        ViewInsert(side, ownSide, incoming.price, incoming);
      }
    }

    /** `MatchBuyOrder`: while the buy order has quantity open and there are
        asks, take the first order of the best (lowest) ask level, unless a
        limit buy's price is below that level; trade the smaller open
        quantity at the ask's price, fill both orders, and remove the ask
        (and its level, once empty) when it is filled.  Computes `Sweep`
        with `side == Buy` over the asks. */
    method MatchBuyOrder(buyOrder: Order, book: OrderBook, tradeIdBase: nat, now: Time) returns (trades: seq<Trade>)
      requires SideOk(Sell, Key(book.instrumentId), View(book.asks))
      requires buyOrder !in Objects(book.asks)
      modifies book, buyOrder, Objects(book.asks)
      ensures SideOk(Sell, Key(book.instrumentId), View(book.asks))
      ensures View(book.asks) == Sweep(Buy, old(View(book.asks)), old(buyOrder.State())).levels
      ensures buyOrder.State() == Sweep(Buy, old(View(book.asks)), old(buyOrder.State())).taker
      ensures trades == TradesFor(Buy, buyOrder, Sweep(Buy, old(View(book.asks)), old(buyOrder.State())).executions, tradeIdBase, now)
      ensures book.bids == old(book.bids)
      ensures Objects(book.asks) <= old(Objects(book.asks))
      ensures LeftFilled(old(Objects(book.asks)), Objects(book.asks))
    {
      ghost var key := Key(book.instrumentId);
      ghost var v0 := View(book.asks);
      ghost var t0 := buyOrder.State();
      ghost var before := Objects(book.asks);
      ghost var done: seq<Execution> := [];
      SideOkLevels(Sell, key, v0);
      ResumesStart(Buy, v0, t0);
      trades := [];
      while buyOrder.quantity > buyOrder.filledQuantity && book.HasAsks()
        invariant Sweeping(book, Buy, key, before, buyOrder, v0, t0, done)
        invariant book.bids == old(book.bids)
        invariant trades == TradesFor(Buy, buyOrder, done, tradeIdBase, now)
        decreases |Flatten(View(book.asks))|, buyOrder.quantity - buyOrder.filledQuantity
      {
        var bestAskPrice := book.GetBestAskPrice();
        if buyOrder.orderType == Limit && buyOrder.price < bestAskPrice {
          break;
        }
        BestLevel(Sell, key, book.asks);
        assert book.asks[0].queue[0] in book.asks[0].queue;
        var trade, e := MatchFront(book, Buy, buyOrder, bestAskPrice, tradeIdBase + |trades|, now, key, before, v0, t0, done);
        assert trade == TradeFor(Buy, buyOrder, e, tradeIdBase + |done|, now);
        trades := trades + [trade];
        TradesForSnoc(Buy, buyOrder, done, e, tradeIdBase, now);
        done := done + [e];
      }
      ResumesStop(Buy, v0, t0, done, View(book.asks), buyOrder.State());
    }

    /** `MatchSellOrder`: the mirror image of `MatchBuyOrder` on the bids,
        best (highest) bid first; a limit sell stops at a bid below its
        price.  Computes `Sweep` with `side == Sell` over the bids. */
    method MatchSellOrder(sellOrder: Order, book: OrderBook, tradeIdBase: nat, now: Time) returns (trades: seq<Trade>)
      requires SideOk(Buy, Key(book.instrumentId), View(book.bids))
      requires sellOrder !in Objects(book.bids)
      modifies book, sellOrder, Objects(book.bids)
      ensures SideOk(Buy, Key(book.instrumentId), View(book.bids))
      ensures View(book.bids) == Sweep(Sell, old(View(book.bids)), old(sellOrder.State())).levels
      ensures sellOrder.State() == Sweep(Sell, old(View(book.bids)), old(sellOrder.State())).taker
      ensures trades == TradesFor(Sell, sellOrder, Sweep(Sell, old(View(book.bids)), old(sellOrder.State())).executions, tradeIdBase, now)
      ensures book.asks == old(book.asks)
      ensures Objects(book.bids) <= old(Objects(book.bids))
      ensures LeftFilled(old(Objects(book.bids)), Objects(book.bids))
    {
      ghost var key := Key(book.instrumentId);
      ghost var v0 := View(book.bids);
      ghost var t0 := sellOrder.State();
      ghost var before := Objects(book.bids);
      ghost var done: seq<Execution> := [];
      SideOkLevels(Buy, key, v0);
      ResumesStart(Sell, v0, t0);
      trades := [];
      while sellOrder.quantity > sellOrder.filledQuantity && book.HasBids()
        invariant book.asks == old(book.asks)
        invariant trades == TradesFor(Sell, sellOrder, done, tradeIdBase, now)
        invariant Sweeping(book, Sell, key, before, sellOrder, v0, t0, done)
        decreases |Flatten(View(book.bids))|, sellOrder.quantity - sellOrder.filledQuantity
      {
        var bestBidPrice := book.GetBestBidPrice();
        if sellOrder.orderType == Limit && sellOrder.price > bestBidPrice {
          break;
        }
        BestLevel(Buy, key, book.bids);
        assert book.bids[0].queue[0] in book.bids[0].queue;
        var trade, e := MatchFront(book, Sell, sellOrder, bestBidPrice, tradeIdBase + |trades|, now, key, before, v0, t0, done);
        assert trade == TradeFor(Sell, sellOrder, e, tradeIdBase + |done|, now);
        trades := trades + [trade];
        TradesForSnoc(Sell, sellOrder, done, e, tradeIdBase, now);
        done := done + [e];
      }
      ResumesStop(Sell, v0, t0, done, View(book.bids), sellOrder.State());
    }

    /** The body of either loop once the best price `best` of the opposing
        side has been found to cross: the first order of the list at that
        price trades the smaller open quantity with the taker at `best`
        (`Trade.Create`, buyer first), and `FillBest` fills both orders.
        The trade is the one `TradeFor` makes of the round's execution. */
    method MatchFront(book: OrderBook, side: OrderSide, taker: Order, best: int, tradeId: TradeId, now: Time,
                      ghost key: string, ghost before: set<Order>,
                      ghost v0: seq<Level<OrderState>>, ghost t0: OrderState, ghost done: seq<Execution>)
      returns (trade: Trade, ghost e: Execution)
      requires Sweeping(book, side, key, before, taker, v0, t0, done)
      requires book.Side(Opposite(side)) != [] && best == book.Side(Opposite(side))[0].price
      requires taker.quantity > taker.filledQuantity && Crosses(side, taker, best)
      modifies book, taker, book.Side(Opposite(side))[0].queue[0]
      ensures Sweeping(book, side, key, before, taker, v0, t0, done + [e])
      ensures trade == TradeFor(side, taker, e, tradeId, now)
      ensures book.Side(side) == old(book.Side(side))
      ensures |Flatten(View(book.Side(Opposite(side))))| < old(|Flatten(View(book.Side(Opposite(side))))|) ||
              (|Flatten(View(book.Side(Opposite(side))))| == old(|Flatten(View(book.Side(Opposite(side))))|) &&
               taker.quantity - taker.filledQuantity < old(taker.quantity - taker.filledQuantity))
    {
      BestLevel(Opposite(side), key, book.Side(Opposite(side)));
      var list := LevelAt(book.Side(Opposite(side)), best);
      var maker := list[0];
      var takerRemaining := taker.quantity - taker.filledQuantity;
      var makerRemaining := maker.quantity - maker.filledQuantity;
      var matchedQty := Min(takerRemaining, makerRemaining);
      if side == Buy {
        trade := Trade.Create(tradeId, taker.orderId, maker.orderId, taker.instrumentId, best, matchedQty, now);
      } else {
        trade := Trade.Create(tradeId, maker.orderId, taker.orderId, taker.instrumentId, best, matchedQty, now);
      }
      e := FillBest(book, side, taker, matchedQty, key, before, v0, t0, done);
    }

    /** One round of either loop, once the best level of the opposing side
        has been found to cross: the taker trades `qty`, the smaller open
        quantity, with the first order of that level.  The round is the next
        execution `e` of `Sweep`, the opposing side keeps the invariant, and
        the order it takes off the side leaves it filled. */
    method FillBest(book: OrderBook, side: OrderSide, taker: Order, qty: int, ghost key: string, ghost before: set<Order>,
                    ghost v0: seq<Level<OrderState>>, ghost t0: OrderState, ghost done: seq<Execution>)
      returns (ghost e: Execution)
      requires Sweeping(book, side, key, before, taker, v0, t0, done)
      requires book.Side(Opposite(side)) != []
      requires taker.quantity > taker.filledQuantity && Crosses(side, taker, book.Side(Opposite(side))[0].price)
      requires qty == Min(taker.quantity - taker.filledQuantity,
                          book.Side(Opposite(side))[0].queue[0].quantity - book.Side(Opposite(side))[0].queue[0].filledQuantity)
      modifies book, taker, book.Side(Opposite(side))[0].queue[0]
      ensures e.maker.order == old(book.Side(Opposite(side))[0].queue[0])
      ensures e.price == old(book.Side(Opposite(side))[0].price) && e.quantity == qty
      ensures Sweeping(book, side, key, before, taker, v0, t0, done + [e])
      ensures book.Side(side) == old(book.Side(side))
      ensures |Flatten(View(book.Side(Opposite(side))))| < old(|Flatten(View(book.Side(Opposite(side))))|) ||
              (|Flatten(View(book.Side(Opposite(side))))| == old(|Flatten(View(book.Side(Opposite(side))))|) &&
               taker.quantity - taker.filledQuantity < old(taker.quantity - taker.filledQuantity))
    {
      ghost var v := View(book.Side(Opposite(side)));
      ghost var t := taker.State();
      ghost var m' := AfterFill(v[0].queue[0], qty);
      e := Execution(m', v[0].price, qty);
      StepKeepsSideOk(side, key, v, t, qty);
      SettleFlatten(v, m');
      SideOkUnique(Opposite(side), key, book.Side(Opposite(side)));
      FillFront(book, Opposite(side), taker, qty, before);
      SweepResumes(side, v0, t0, done, v, t, qty);
    }

    /** The fill at the heart of both matching loops: the taker and then the
        first order of the best level on `side` are filled by `qty`, and
        that order leaves the side (with its level, once empty) when it is
        filled. */
    method FillFront(book: OrderBook, side: OrderSide, taker: Order, qty: int, ghost before: set<Order>)
      requires book.Side(side) != [] && |book.Side(side)[0].queue| > 0 && Unique(book.Side(side))
      requires taker !in before && Objects(book.Side(side)) <= before
      requires LeftFilled(before, Objects(book.Side(side)))
      requires qty <= book.Side(side)[0].queue[0].quantity - book.Side(side)[0].queue[0].filledQuantity
      modifies book, taker, book.Side(side)[0].queue[0]
      ensures View(book.Side(side)) ==
        Settle(old(View(book.Side(side))), AfterFill(old(View(book.Side(side)))[0].queue[0], qty))
      ensures old(book.Side(side)[0].queue[0]).State() == AfterFill(old(View(book.Side(side)))[0].queue[0], qty)
      ensures taker.State() == AfterFill(old(taker.State()), qty)
      ensures book.Side(Opposite(side)) == old(book.Side(Opposite(side)))
      ensures Objects(book.Side(side)) <= old(Objects(book.Side(side)))
      ensures LeftFilled(before, Objects(book.Side(side)))
    {
      ghost var c := book.Side(side);
      ghost var v := View(c);
      var maker := book.Side(side)[0].queue[0];
      assert maker in c[0].queue;
      label before:
      taker.Fill(qty);
      maker.Fill(qty);
      ViewAfterFrontFill@before(c);
      assert LeftFilled(before, Objects(c));
      if maker.status == Filled {
        RemoveAtAfterUpdate(v, AfterFill(v[0].queue[0], qty));
        DropFront(book, side, before);
      }
    }

    /** The removal of a filled maker in either loop (`RemoveAt(0)` on the
        best level's list, then `Remove` of its price once the list is
        empty): the first order of the best level leaves its queue, and the
        level leaves the side once empty. */
    method DropFront(book: OrderBook, side: OrderSide, ghost before: set<Order>)
      requires book.Side(side) != [] && |book.Side(side)[0].queue| > 0
      requires LeftFilled(before, Objects(book.Side(side)))
      requires book.Side(side)[0].queue[0].filledQuantity == book.Side(side)[0].queue[0].quantity
      requires book.Side(side)[0].queue[0].status == Filled
      modifies book
      ensures View(book.Side(side)) == RemoveAt(old(View(book.Side(side))), 0, 0)
      ensures book.Side(Opposite(side)) == old(book.Side(Opposite(side)))
      ensures Objects(book.Side(side)) <= old(Objects(book.Side(side)))
      ensures LeftFilled(before, Objects(book.Side(side)))
    {
      ghost var c := book.Side(side);
      ViewRemoveAt(c, 0, 0);
      RemoveAtObjects(c, 0, 0);
      if side == Buy {
        book.bids := RemoveAt(book.bids, 0, 0);
      } else {
        book.asks := RemoveAt(book.asks, 0, 0);
      }
      ViewUnchanged(book.Side(side));
    }
  }
}
