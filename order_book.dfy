/** The per-instrument order book (the `OrderBook` class of
    src/Domain/Services/MatchingEngine.cs).

    Each side is a `SortedDictionary<decimal, List<Order>>`: price levels
    kept in priority order (bids by descending price, asks by ascending
    price), each holding its resting orders first-in first-out.  Here a
    side is a sequence of levels whose prices are strictly ordered by that
    priority; `LevelAt` reads it back as the dictionary it stands for.

    The level operations are generic in what a level holds, so that the
    same definitions serve the book itself (levels of `Order` references)
    and its value view (levels of `OrderState`, see `View`). */
module OrderBooks {
  import opened Basics
  import opened Text
  import opened Orders

  datatype Level<T> = Level(price: int, queue: seq<T>)

  /** Price `p` comes before price `q` on `side`: bids are sorted with the
      highest price first, asks with the lowest price first. */
  predicate Better(side: OrderSide, p: int, q: int)
  {
    if side == Buy then p > q else p < q
  }

  /** The sort order of a side's dictionary, strict because keys are unique. */
  predicate Ranked<T>(side: OrderSide, levels: seq<Level<T>>)
  {
    forall i, j :: 0 <= i < j < |levels| ==> Better(side, levels[i].price, levels[j].price)
  }

  class OrderBook {
    const instrumentId: string
    /** `Bids`, highest price first. */
    var bids: seq<Level<Order>>
    /** `Asks`, lowest price first. */
    var asks: seq<Level<Order>>

    constructor (instrumentId: string)
      ensures this.instrumentId == instrumentId
      ensures bids == [] && asks == []
    {
      this.instrumentId := instrumentId;
      bids := [];
      asks := [];
    }

    /** The dictionary that holds orders of `side`. */
    function Side(side: OrderSide): seq<Level<Order>>
      reads this
    {
      if side == Buy then bids else asks
    }

    predicate HasBids()
      reads this
    {
      |bids| > 0
    }

    predicate HasAsks()
      reads this
    {
      |asks| > 0
    }

    /** `GetBestBidPrice`: the first key of the bid dictionary, which is the
        highest bid price.  Like `First()`, it needs a non-empty side. */
    function GetBestBidPrice(): (p: int)
      requires HasBids()
      reads this
      ensures exists i :: 0 <= i < |bids| && bids[i].price == p
      ensures Ranked(Buy, bids) ==> forall i :: 0 <= i < |bids| ==> bids[i].price <= p
    {
      bids[0].price
    }

    /** `GetBestAskPrice`: the first key of the ask dictionary, which is the
        lowest ask price. */
    function GetBestAskPrice(): (p: int)
      requires HasAsks()
      reads this
      ensures exists i :: 0 <= i < |asks| && asks[i].price == p
      ensures Ranked(Sell, asks) ==> forall i :: 0 <= i < |asks| ==> asks[i].price >= p
    {
      asks[0].price
    }

    /** `AddOrder`: rests `order` at the back of the list at its price on its
        side, creating that price level if it is missing. */
    method AddOrder(order: Order)
      modifies this
      ensures order.side == Buy ==> bids == Insert(Buy, old(bids), order.price, order) && asks == old(asks)
      ensures order.side == Sell ==> asks == Insert(Sell, old(asks), order.price, order) && bids == old(bids)
    {
      if order.side == Buy {
        bids := Insert(Buy, bids, order.price, order);
      } else {
        asks := Insert(Sell, asks, order.price, order);
      }
    }
  }

  // ------------------------------------------------------------------
  // The dictionary a side stands for, and the operations on it
  // ------------------------------------------------------------------

  /** The queue the dictionary holds under key `p`, or [] if there is none. */
  function LevelAt<T>(levels: seq<Level<T>>, p: int): seq<T>
  {
    if levels == [] then []
    else if levels[0].price == p then levels[0].queue
    else LevelAt(levels[1..], p)
  }

  /** Appending `x` at the back of the queue at `price`, creating the level
      in its sorted place when it is missing (`AddOrder`). */
  function Insert<T>(side: OrderSide, levels: seq<Level<T>>, price: int, x: T): seq<Level<T>>
  {
    if levels == [] then [Level(price, [x])]
    else if levels[0].price == price then [Level(price, levels[0].queue + [x])] + levels[1..]
    else if Better(side, price, levels[0].price) then [Level(price, [x])] + levels
    else [levels[0]] + Insert(side, levels[1..], price, x)
  }

  /** Removing the `j`-th entry of level `i` and, if that empties the level,
      the level itself (`RemoveAt(0)` followed by `Remove(price)`). */
  function RemoveAt<T>(levels: seq<Level<T>>, i: nat, j: nat): seq<Level<T>>
    requires i < |levels| && j < |levels[i].queue|
  {
    var q := levels[i].queue[..j] + levels[i].queue[j + 1..];
    if q == [] then levels[..i] + levels[i + 1..]
    else levels[i := Level(levels[i].price, q)]
  }

  /** The index of the level with price `p`, if any (`TryGetValue`). */
  function IndexOfPrice<T>(levels: seq<Level<T>>, p: int): (r: Option<nat>)
    ensures r.Some? ==> r.value < |levels| && levels[r.value].price == p
    ensures r.None? ==> forall i :: 0 <= i < |levels| ==> levels[i].price != p
  {
    if levels == [] then None
    else if levels[0].price == p then Some(0)
    else match IndexOfPrice(levels[1..], p)
      case None => None
      case Some(i) => Some(i + 1)
  }

  /** `List.Remove`: drops the first occurrence of `x`, if there is one. */
  function RemoveFirst<T(==)>(q: seq<T>, x: T): seq<T>
  {
    if q == [] then []
    else if q[0] == x then q[1..]
    else [q[0]] + RemoveFirst(q[1..], x)
  }

  /** What `RemoveOrderFromBook` does to the side of `o`: look up the level
      at `o.price`, remove `o` from its list, and delete the level if the
      list is then empty.  A missing level leaves the side as it is. */
  function RemoveOrder(levels: seq<Level<Order>>, o: Order): seq<Level<Order>>
  {
    match IndexOfPrice(levels, o.price)
    case None => levels
    case Some(i) =>
      var q := RemoveFirst(levels[i].queue, o);
      if q == [] then levels[..i] + levels[i + 1..]
      else levels[i := Level(levels[i].price, q)]
  }

  // ------------------------------------------------------------------
  // Dictionary semantics of the operations
  // ------------------------------------------------------------------

  lemma {:induction false} LevelAtMissing<T>(levels: seq<Level<T>>, p: int)
    requires forall i :: 0 <= i < |levels| ==> levels[i].price != p
    ensures LevelAt(levels, p) == []
  {
    if levels != [] {
      LevelAtMissing(levels[1..], p);
    }
  }

  lemma {:induction false} LevelAtIndex<T>(side: OrderSide, levels: seq<Level<T>>, i: nat)
    requires Ranked(side, levels) && i < |levels|
    ensures LevelAt(levels, levels[i].price) == levels[i].queue
  {
    if i > 0 {
      LevelAtIndex(side, levels[1..], i - 1);
    }
  }

  /** The queue under key `p` is the one of the level priced `p`, if any. */
  lemma LevelAtFind<T>(side: OrderSide, levels: seq<Level<T>>, p: int)
    requires Ranked(side, levels)
    ensures match IndexOfPrice(levels, p)
      case None => LevelAt(levels, p) == []
      case Some(i) => LevelAt(levels, p) == levels[i].queue
  {
    match IndexOfPrice(levels, p)
    case None => LevelAtMissing(levels, p);
    case Some(i) => LevelAtIndex(side, levels, i);
  }

  lemma BetterTransitive(side: OrderSide, a: int, b: int, c: int)
    requires Better(side, a, b) && Better(side, b, c)
    ensures Better(side, a, c)
  {
  }

  /** `AddOrder` keeps the side sorted, appends the order at the back of the
      queue at its own price (creating the level if needed), and leaves
      every other price level as it was. */
  lemma {:induction false} InsertAppendsAtBack<T>(side: OrderSide, levels: seq<Level<T>>, price: int, x: T)
    requires Ranked(side, levels)
    ensures Ranked(side, Insert(side, levels, price, x))
    ensures forall p :: LevelAt(Insert(side, levels, price, x), p) ==
                        LevelAt(levels, p) + (if p == price then [x] else [])
  {
    var r := Insert(side, levels, price, x);
    if levels == [] {
    } else if levels[0].price == price {
      assert r[1..] == levels[1..];
    } else if Better(side, price, levels[0].price) {
      assert r[1..] == levels;
      forall i | 0 <= i < |levels| ensures levels[i].price != price {
        if i > 0 { BetterTransitive(side, price, levels[0].price, levels[i].price); }
      }
      LevelAtMissing(levels, price);
    } else {
      InsertAppendsAtBack(side, levels[1..], price, x);
      var rest := Insert(side, levels[1..], price, x);
      assert r[1..] == rest;
      forall i | 0 <= i < |rest| ensures Better(side, levels[0].price, rest[i].price) {
        if rest[i].price != price {
          // every level of `rest` is either the new one or one of levels[1..]
          InsertPrices(side, levels[1..], price, x, i);
        }
      }
    }
  }

  /** Each level of an insertion result is the inserted price or an old one. */
  lemma {:induction false} InsertPrices<T>(side: OrderSide, levels: seq<Level<T>>, price: int, x: T, i: nat)
    requires i < |Insert(side, levels, price, x)|
    ensures Insert(side, levels, price, x)[i].price == price ||
            exists k :: 0 <= k < |levels| && levels[k].price == Insert(side, levels, price, x)[i].price
  {
    var r := Insert(side, levels, price, x);
    if levels == [] {
    } else if levels[0].price == price {
      if i > 0 { assert r[i] == levels[i]; }
    } else if Better(side, price, levels[0].price) {
      if i > 0 { assert r[i] == levels[i - 1]; }
    } else if i > 0 {
      InsertPrices(side, levels[1..], price, x, i - 1);
      var k :| (0 <= k < |levels[1..]| && levels[1..][k].price == r[i].price) || r[i].price == price;
      if r[i].price != price {
        assert levels[k + 1].price == r[i].price;
      }
    }
  }

  /** Removing one entry keeps the side sorted, takes exactly that entry out
      of its level's queue, and changes no other level. */
  lemma RemoveAtSpec<T>(side: OrderSide, levels: seq<Level<T>>, i: nat, j: nat)
    requires Ranked(side, levels)
    requires i < |levels| && j < |levels[i].queue|
    ensures Ranked(side, RemoveAt(levels, i, j))
    ensures forall p :: (LevelAt(RemoveAt(levels, i, j), p) ==
                         if p == levels[i].price then levels[i].queue[..j] + levels[i].queue[j + 1..]
                         else LevelAt(levels, p))
  {
    var q := levels[i].queue[..j] + levels[i].queue[j + 1..];
    if q == [] {
      assert RemoveAt(levels, i, j) == levels[..i] + levels[i + 1..];
      DropRanked(side, levels, i);
      forall p ensures LevelAt(RemoveAt(levels, i, j), p) == if p == levels[i].price then q else LevelAt(levels, p) {
        DropLevelAt(side, levels, i, p);
      }
    } else {
      assert RemoveAt(levels, i, j) == levels[i := Level(levels[i].price, q)];
      forall p ensures LevelAt(RemoveAt(levels, i, j), p) == if p == levels[i].price then q else LevelAt(levels, p) {
        ReplaceLevelAt(side, levels, i, q, p);
      }
      ReplaceLevelAt(side, levels, i, q, levels[i].price);
    }
  }

  /** Dropping a level keeps a side sorted. */
  lemma DropRanked<T>(side: OrderSide, levels: seq<Level<T>>, i: nat)
    requires Ranked(side, levels) && i < |levels|
    ensures Ranked(side, levels[..i] + levels[i + 1..])
  {
    var r := levels[..i] + levels[i + 1..];
    forall a, b | 0 <= a < b < |r| ensures Better(side, r[a].price, r[b].price) {
      var a' := if a < i then a else a + 1;
      var b' := if b < i then b else b + 1;
      assert r[a] == levels[a'] && r[b] == levels[b'];
    }
  }

  /** Dropping the level at `i` empties its price and leaves the others. */
  lemma DropLevelAt<T>(side: OrderSide, levels: seq<Level<T>>, i: nat, p: int)
    requires Ranked(side, levels) && i < |levels|
    requires Ranked(side, levels[..i] + levels[i + 1..])
    ensures LevelAt(levels[..i] + levels[i + 1..], p) == if p == levels[i].price then [] else LevelAt(levels, p)
  {
    var r := levels[..i] + levels[i + 1..];
    if k :| 0 <= k < |levels| && k != i && levels[k].price == p {
      DropOtherLevelAt(side, levels, i, k);
    } else {
      forall k | 0 <= k < |r| ensures r[k].price != p {
        if k < i { assert r[k] == levels[k]; } else { assert r[k] == levels[k + 1]; }
      }
      LevelAtMissing(r, p);
      if p != levels[i].price {
        LevelAtMissing(levels, p);
      }
    }
  }

  /** Dropping the level at `i` leaves the level at `k` in place. */
  lemma DropOtherLevelAt<T>(side: OrderSide, levels: seq<Level<T>>, i: nat, k: nat)
    requires Ranked(side, levels) && i < |levels| && k < |levels| && k != i
    requires Ranked(side, levels[..i] + levels[i + 1..])
    ensures LevelAt(levels[..i] + levels[i + 1..], levels[k].price) == LevelAt(levels, levels[k].price)
  {
    var r := levels[..i] + levels[i + 1..];
    var k' := if k < i then k else k - 1;
    assert r[k'] == levels[k];
    LevelAtIndex(side, r, k');
    LevelAtIndex(side, levels, k);
  }

  /** Replacing the queue of the level at `i` changes that price only. */
  lemma ReplaceLevelAt<T>(side: OrderSide, levels: seq<Level<T>>, i: nat, q: seq<T>, p: int)
    requires Ranked(side, levels) && i < |levels|
    ensures Ranked(side, levels[i := Level(levels[i].price, q)])
    ensures LevelAt(levels[i := Level(levels[i].price, q)], p) == if p == levels[i].price then q else LevelAt(levels, p)
  {
    var r := levels[i := Level(levels[i].price, q)];
    assert Ranked(side, r) by {
      forall a, b | 0 <= a < b < |r| ensures Better(side, r[a].price, r[b].price) {
        assert r[a].price == levels[a].price && r[b].price == levels[b].price;
      }
    }
    LevelAtFind(side, levels, p);
    if p == levels[i].price {
      LevelAtIndex(side, r, i);
    } else {
      match IndexOfPrice(levels, p)
      case None =>
        LevelAtMissing(r, p);
      case Some(k) =>
        LevelAtIndex(side, r, k);
    }
  }

  lemma {:induction false} RemoveFirstAt<T>(q: seq<T>, j: nat)
    requires j < |q|
    requires forall k :: 0 <= k < j ==> q[k] != q[j]
    ensures RemoveFirst(q, q[j]) == q[..j] + q[j + 1..]
  {
    if j > 0 {
      RemoveFirstAt(q[1..], j - 1);
      assert q[1..][..j - 1] == q[1..j];
      assert q[1..][j..] == q[j + 1..];
      assert [q[0]] + q[1..j] == q[..j];
    }
  }

  lemma {:induction false} RemoveFirstMissing<T>(q: seq<T>, x: T)
    requires x !in q
    ensures RemoveFirst(q, x) == q
  {
    if q != [] {
      RemoveFirstMissing(q[1..], x);
    }
  }

  /** On a sorted side, removing an order that sits at position `j` of level
      `i` (and nowhere earlier in that level) is exactly `RemoveAt(i, j)`. */
  lemma RemoveOrderIsRemoveAt(side: OrderSide, levels: seq<Level<Order>>, i: nat, j: nat)
    requires Ranked(side, levels)
    requires i < |levels| && j < |levels[i].queue|
    requires forall k :: 0 <= k < j ==> levels[i].queue[k] != levels[i].queue[j]
    requires levels[i].queue[j].price == levels[i].price
    ensures RemoveOrder(levels, levels[i].queue[j]) == RemoveAt(levels, i, j)
  {
    var o := levels[i].queue[j];
    match IndexOfPrice(levels, o.price)
    case None =>
    case Some(k) =>
      assert k == i;
      RemoveFirstAt(levels[i].queue, j);
  }

  /** An order that is not in the side leaves it unchanged. */
  lemma RemoveOrderMissing(levels: seq<Level<Order>>, o: Order)
    requires forall i :: 0 <= i < |levels| ==> levels[i].queue != [] && o !in levels[i].queue
    ensures RemoveOrder(levels, o) == levels
  {
    match IndexOfPrice(levels, o.price)
    case None =>
    case Some(i) =>
      RemoveFirstMissing(levels[i].queue, o);
      assert levels[i := Level(levels[i].price, levels[i].queue)] == levels;
  }

  /** Updating the first entry and then removing it is just removing it. */
  lemma RemoveAtAfterUpdate<T>(levels: seq<Level<T>>, x: T)
    requires levels != [] && |levels[0].queue| > 0
    ensures RemoveAt(levels[0 := Level(levels[0].price, levels[0].queue[0 := x])], 0, 0) == RemoveAt(levels, 0, 0)
  {
    var u := levels[0 := Level(levels[0].price, levels[0].queue[0 := x])];
    assert u[0].queue[1..] == levels[0].queue[1..];
  }
}
