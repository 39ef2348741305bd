/** The value view of a book side and the invariant every side keeps.

    A side holds references to `Order` objects whose fill state the
    matching loop changes in place.  `View` reads that state and turns a
    side into levels of `OrderState` values, so that the matching rules can
    be stated as pure functions on values (module Matching) and the engine's
    methods can be proved against them. */
module BookViews {
  import opened Basics
  import opened Text
  import opened Orders
  import opened OrderBooks

  /** An order resting on `side` at `price` in the book whose instrument key
      is `key`: it belongs there and is still open. */
  predicate LotOk(side: OrderSide, key: string, price: int, s: OrderState)
  {
    s.order.side == side && s.order.price == price && Key(s.order.instrumentId) == key && s.Live()
  }

  /** A price level is never empty (an emptied level is removed at once),
      and holds each order at most once. */
  predicate LevelOk(side: OrderSide, key: string, l: Level<OrderState>)
  {
    && |l.queue| > 0
    && (forall j :: 0 <= j < |l.queue| ==> LotOk(side, key, l.price, l.queue[j]))
    && (forall j, j' :: 0 <= j < j' < |l.queue| ==> l.queue[j].order != l.queue[j'].order)
  }

  /** The book invariant for one side. */
  predicate SideOk(side: OrderSide, key: string, v: seq<Level<OrderState>>)
  {
    Ranked(side, v) && forall i :: 0 <= i < |v| ==> LevelOk(side, key, v[i])
  }

  /** The orders resting on a side. */
  function Objects(c: seq<Level<Order>>): set<Order>
  {
    set i, o | 0 <= i < |c| && o in c[i].queue :: o
  }

  ghost function States(q: seq<Order>): (r: seq<OrderState>)
    reads q
    ensures |r| == |q|
    ensures forall j :: 0 <= j < |q| ==> r[j] == q[j].State()
  {
    seq(|q|, j requires 0 <= j < |q| reads q => q[j].State())
  }

  /** The current state of every order on a side, level by level. */
  ghost function View(c: seq<Level<Order>>): (v: seq<Level<OrderState>>)
    reads Objects(c)
    ensures |v| == |c|
    ensures forall i :: 0 <= i < |c| ==> v[i].price == c[i].price && |v[i].queue| == |c[i].queue|
    ensures forall i, j :: 0 <= i < |c| && 0 <= j < |c[i].queue| ==> v[i].queue[j] == c[i].queue[j].State()
  {
    assert forall i, x :: 0 <= i < |c| && x in c[i].queue ==> x in Objects(c);
    seq(|c|, i requires 0 <= i < |c| reads Objects(c) => Level(c[i].price, States(c[i].queue)))
  }

  // ------------------------------------------------------------------
  // The view commutes with the side operations
  // ------------------------------------------------------------------

  /** A sequence of levels that agrees with the orders' current states
      position by position is the view. */
  lemma ViewEq(c: seq<Level<Order>>, w: seq<Level<OrderState>>)
    requires |w| == |c|
    requires forall i :: 0 <= i < |c| ==> w[i].price == c[i].price && |w[i].queue| == |c[i].queue|
    requires forall i, j :: 0 <= i < |c| && 0 <= j < |c[i].queue| ==> w[i].queue[j] == c[i].queue[j].State()
    ensures View(c) == w
  {
    var v := View(c);
    forall i | 0 <= i < |c| ensures v[i] == w[i] {
      assert v[i].queue == w[i].queue;
    }
  }

  lemma RemoveAtObjects(c: seq<Level<Order>>, i: nat, j: nat)
    requires i < |c| && j < |c[i].queue|
    ensures Objects(RemoveAt(c, i, j)) <= Objects(c)
    ensures Objects(c) - {c[i].queue[j]} <= Objects(RemoveAt(c, i, j))
  {
    var r := RemoveAt(c, i, j);
    var q := c[i].queue[..j] + c[i].queue[j + 1..];
    forall x | x in Objects(c) && x != c[i].queue[j] ensures x in Objects(r) {
      var a :| 0 <= a < |c| && x in c[a].queue;
      if a == i {
        var b :| 0 <= b < |c[i].queue| && c[i].queue[b] == x;
        assert x == if b < j then q[b] else q[b - 1];
        assert x in r[i].queue;
      } else if |r| == |c| {
        assert x in r[a].queue;
      } else if a < i {
        assert x in r[a].queue;
      } else {
        assert x in r[a - 1].queue;
      }
    }
    forall x | x in Objects(r) ensures x in Objects(c) {
      var a :| 0 <= a < |r| && x in r[a].queue;
      if |r| == |c| {
        if a == i {
          assert x in c[i].queue[..j] || x in c[i].queue[j + 1..];
        }
        assert x in c[a].queue;
      } else if a < i {
        assert x in c[a].queue;
      } else {
        assert x in c[a + 1].queue;
      }
    }
  }

  lemma ViewRemoveAt(c: seq<Level<Order>>, i: nat, j: nat)
    requires i < |c| && j < |c[i].queue|
    ensures View(RemoveAt(c, i, j)) == RemoveAt(View(c), i, j)
  {
    var r := RemoveAt(c, i, j);
    var q := c[i].queue[..j] + c[i].queue[j + 1..];
    var v := View(c);
    var w := RemoveAt(v, i, j);
    if q == [] {
      forall a | 0 <= a < |r| ensures r[a] == c[if a < i then a else a + 1] && w[a] == v[if a < i then a else a + 1] {
      }
    } else {
      assert r[i].queue == q && w[i].queue == v[i].queue[..j] + v[i].queue[j + 1..];
    }
    ViewEq(r, w);
  }

  lemma {:induction false} ObjectsInsert(side: OrderSide, c: seq<Level<Order>>, p: int, o: Order)
    ensures Objects(Insert(side, c, p, o)) == Objects(c) + {o}
  {
    var r := Insert(side, c, p, o);
    if c == [] {
      assert o in r[0].queue;
    } else if c[0].price == p {
      ObjectsCons(c);
      ObjectsCons(r);
      assert r[1..] == c[1..];
      assert Objects([r[0]]) == Objects([c[0]]) + {o} by {
        assert forall x :: x in r[0].queue <==> x in c[0].queue || x == o;
        ObjectsOne(r[0]);
        ObjectsOne(c[0]);
      }
    } else if Better(side, p, c[0].price) {
      ObjectsCons(r);
      assert r[1..] == c;
      assert Objects([r[0]]) == {o} by {
        assert forall x :: x in r[0].queue <==> x == o;
        ObjectsOne(r[0]);
      }
    } else {
      ObjectsInsert(side, c[1..], p, o);
      ObjectsCons(c);
      ObjectsCons(r);
      assert r[1..] == Insert(side, c[1..], p, o);
    }
  }

  lemma {:induction false} ViewInsert(side: OrderSide, c: seq<Level<Order>>, p: int, o: Order)
    ensures View(Insert(side, c, p, o)) == Insert(side, View(c), p, o.State())
  {
    if c == [] || c[0].price == p || Better(side, p, c[0].price) {
      ViewInsertHere(side, c, p, o);
    } else {
      ViewInsert(side, c[1..], p, o);
      ViewCons(c[0], c[1..]);
      assert c == [c[0]] + c[1..];
      ViewCons(c[0], Insert(side, c[1..], p, o));
    }
  }

  /** `Insert` where the order lands in the first level or just before it. */
  lemma ViewInsertHere(side: OrderSide, c: seq<Level<Order>>, p: int, o: Order)
    requires c == [] || c[0].price == p || Better(side, p, c[0].price)
    ensures View(Insert(side, c, p, o)) == Insert(side, View(c), p, o.State())
  {
    ViewEq(Insert(side, c, p, o), Insert(side, View(c), p, o.State()));
  }

  /** The view of a side is the view of its first level followed by the
      view of the rest. */
  lemma ViewCons(l: Level<Order>, c: seq<Level<Order>>)
    ensures View([l] + c) == [Level(l.price, States(l.queue))] + View(c)
  {
    ViewEq([l] + c, [Level(l.price, States(l.queue))] + View(c));
  }

  lemma ObjectsOne(l: Level<Order>)
    ensures forall x :: x in Objects([l]) <==> x in l.queue
  {
    assert [l][0] == l;
  }

  /** The orders of a side are those of its first level and of the rest. */
  lemma ObjectsCons(c: seq<Level<Order>>)
    requires c != []
    ensures Objects(c) == Objects([c[0]]) + Objects(c[1..])
  {
    forall x | x in Objects(c) ensures x in Objects([c[0]]) + Objects(c[1..]) {
      var a :| 0 <= a < |c| && x in c[a].queue;
      if a == 0 { assert x in [c[0]][0].queue; } else { assert x in c[1..][a - 1].queue; }
    }
    forall x | x in Objects([c[0]]) + Objects(c[1..]) ensures x in Objects(c) {
      if x in Objects([c[0]]) {
        assert x in c[0].queue;
      } else {
        var a :| 0 <= a < |c[1..]| && x in c[1..][a].queue;
        assert x in c[a + 1].queue;
      }
    }
  }

  // ------------------------------------------------------------------
  // The side operations keep the book invariant
  // ------------------------------------------------------------------

  /** On a side that keeps the invariant, an order rests in one place only. */
  lemma SideOkDistinct(side: OrderSide, key: string, v: seq<Level<OrderState>>,
                       i: nat, j: nat, i': nat, j': nat)
    requires SideOk(side, key, v)
    requires i < |v| && j < |v[i].queue| && i' < |v| && j' < |v[i'].queue|
    requires i != i' || j != j'
    ensures v[i].queue[j].order != v[i'].queue[j'].order
  {
    if i < i' {
      assert Better(side, v[i].price, v[i'].price);
    } else if i' < i {
      assert Better(side, v[i'].price, v[i].price);
    } else if j < j' {
      assert v[i].queue[j].order != v[i].queue[j'].order;
    } else if j' < j {
      assert v[i].queue[j'].order != v[i].queue[j].order;
    }
  }

  /** Removing an order keeps the invariant. */
  lemma SideOkRemoveAt(side: OrderSide, key: string, v: seq<Level<OrderState>>, i: nat, j: nat)
    requires SideOk(side, key, v)
    requires i < |v| && j < |v[i].queue|
    ensures SideOk(side, key, RemoveAt(v, i, j))
  {
    RemoveAtSpec(side, v, i, j);
    var r := RemoveAt(v, i, j);
    var q := v[i].queue[..j] + v[i].queue[j + 1..];
    forall a | 0 <= a < |r| ensures LevelOk(side, key, r[a]) {
      if |r| < |v| {
        if a < i { assert r[a] == v[a]; } else { assert r[a] == v[a + 1]; }
      } else if a == i {
        assert r[a] == Level(v[i].price, q);
        forall b, b' | 0 <= b < b' < |q| ensures q[b].order != q[b'].order {
          var ob := if b < j then b else b + 1;
          var ob' := if b' < j then b' else b' + 1;
          assert q[b] == v[i].queue[ob] && q[b'] == v[i].queue[ob'];
        }
        forall b | 0 <= b < |q| ensures LotOk(side, key, v[i].price, q[b]) {
          if b < j { assert q[b] == v[i].queue[b]; } else { assert q[b] == v[i].queue[b + 1]; }
        }
      }
    }
  }

  /** Replacing the first order of the best level by a state of the same
      order that still may rest there keeps the invariant. */
  lemma SideOkUpdateFront(side: OrderSide, key: string, v: seq<Level<OrderState>>, x: OrderState)
    requires SideOk(side, key, v)
    requires v != [] && x.order == v[0].queue[0].order
    requires LotOk(side, key, v[0].price, x)
    ensures SideOk(side, key, v[0 := Level(v[0].price, v[0].queue[0 := x])])
  {
    var r := v[0 := Level(v[0].price, v[0].queue[0 := x])];
    assert LevelOk(side, key, r[0]) by {
      forall b, b' | 0 <= b < b' < |r[0].queue| ensures r[0].queue[b].order != r[0].queue[b'].order {
        assert r[0].queue[b].order == v[0].queue[b].order;
      }
    }
    forall a | 0 < a < |r| ensures LevelOk(side, key, r[a]) {
      assert r[a] == v[a];
    }
  }

  /** Resting a new order that may rest on this side keeps the invariant. */
  lemma {:induction false} SideOkInsert(side: OrderSide, key: string, v: seq<Level<OrderState>>, x: OrderState)
    requires SideOk(side, key, v)
    requires LotOk(side, key, x.order.price, x)
    requires forall i, j :: 0 <= i < |v| && 0 <= j < |v[i].queue| ==> v[i].queue[j].order != x.order
    ensures SideOk(side, key, Insert(side, v, x.order.price, x))
  {
    var p := x.order.price;
    var r := Insert(side, v, p, x);
    InsertAppendsAtBack(side, v, p, x);
    if v == [] {
    } else if v[0].price == p {
      assert r[0].queue == v[0].queue + [x];
      forall a | 0 < a < |r| ensures LevelOk(side, key, r[a]) {
        assert r[a] == v[a];
      }
    } else if Better(side, p, v[0].price) {
      forall a | 0 < a < |r| ensures LevelOk(side, key, r[a]) {
        assert r[a] == v[a - 1];
      }
    } else {
      SideOkInsert(side, key, v[1..], x);
      assert r[1..] == Insert(side, v[1..], p, x);
      forall a | 0 < a < |r| ensures LevelOk(side, key, r[a]) {
        assert r[a] == r[1..][a - 1];
      }
    }
  }

  // ------------------------------------------------------------------
  // Where the orders of a side are
  // ------------------------------------------------------------------

  /** An order that is not on a side is the order of none of the side's
      states. */
  lemma NotInView(c: seq<Level<Order>>, o: Order)
    requires o !in Objects(c)
    ensures forall i, j :: 0 <= i < |View(c)| && 0 <= j < |View(c)[i].queue| ==> View(c)[i].queue[j].order != o
  {
    forall i, j | 0 <= i < |View(c)| && 0 <= j < |View(c)[i].queue|
      ensures View(c)[i].queue[j].order != o
    {
      assert View(c)[i].queue[j] == c[i].queue[j].State();
      assert c[i].queue[j] in c[i].queue;
      assert c[i].queue[j] in Objects(c);
    }
  }

  /** Every order on a side belongs to that side and to that instrument,
      read off any run of states that lists the side's orders level by level
      and keeps the invariant (the side's view now, or as it was). */
  lemma ObjectsOfStates(side: OrderSide, key: string, c: seq<Level<Order>>, v: seq<Level<OrderState>>)
    requires SideOk(side, key, v) && |v| == |c|
    requires forall i :: 0 <= i < |c| ==> v[i].price == c[i].price && |v[i].queue| == |c[i].queue|
    requires forall i, j :: 0 <= i < |c| && 0 <= j < |c[i].queue| ==> v[i].queue[j].order == c[i].queue[j]
    ensures forall o :: o in Objects(c) ==> o.side == side && Key(o.instrumentId) == key
  {
    forall o | o in Objects(c) ensures o.side == side && Key(o.instrumentId) == key {
      var i :| 0 <= i < |c| && o in c[i].queue;
      var j :| 0 <= j < |c[i].queue| && c[i].queue[j] == o;
      assert LevelOk(side, key, v[i]);
      assert LotOk(side, key, c[i].price, v[i].queue[j]);
    }
  }

  /** The same, read off the side's current view. */
  lemma ObjectsOfSide(side: OrderSide, key: string, c: seq<Level<Order>>)
    requires SideOk(side, key, View(c))
    ensures forall o :: o in Objects(c) ==> o.side == side && Key(o.instrumentId) == key
  {
    ObjectsOfStates(side, key, c, View(c));
  }

  /** No order appears twice on the side. */
  predicate Unique(c: seq<Level<Order>>)
  {
    forall a, b, a', b' ::
      0 <= a < |c| && 0 <= b < |c[a].queue| && 0 <= a' < |c| && 0 <= b' < |c[a'].queue| && (a != a' || b != b')
      ==> c[a].queue[b] != c[a'].queue[b']
  }

  lemma SideOkUnique(side: OrderSide, key: string, c: seq<Level<Order>>)
    requires SideOk(side, key, View(c))
    ensures Unique(c)
  {
    forall a, b, a', b' |
      0 <= a < |c| && 0 <= b < |c[a].queue| && 0 <= a' < |c| && 0 <= b' < |c[a'].queue| && (a != a' || b != b')
      ensures c[a].queue[b] != c[a'].queue[b']
    {
      SideOkDistinct(side, key, View(c), a, b, a', b');
    }
  }

  /** Removing an order from a side that holds each order once takes it
      off the side altogether and keeps every other order. */
  lemma RemovedOrderGone(c: seq<Level<Order>>, i: nat, j: nat)
    requires Unique(c)
    requires i < |c| && j < |c[i].queue|
    ensures Objects(RemoveAt(c, i, j)) == Objects(c) - {c[i].queue[j]}
  {
    RemovedOrderGoneOnly(c, i, j);
    RemoveAtKeepsOthers(c, i, j);
    RemoveAtObjects(c, i, j);
  }

  lemma RemovedOrderGoneOnly(c: seq<Level<Order>>, i: nat, j: nat)
    requires Unique(c)
    requires i < |c| && j < |c[i].queue|
    ensures c[i].queue[j] !in Objects(RemoveAt(c, i, j))
  {
    var r := RemoveAt(c, i, j);
    forall x | x in Objects(r) ensures x != c[i].queue[j] {
      var a :| 0 <= a < |r| && x in r[a].queue;
      var b :| 0 <= b < |r[a].queue| && r[a].queue[b] == x;
      RemainingEntry(c, i, j, a, b);
    }
  }

  /** Every entry left after removing entry `j` of level `i` is another
      entry of the side, so not the removed order. */
  lemma RemainingEntry(c: seq<Level<Order>>, i: nat, j: nat, a: nat, b: nat)
    requires Unique(c)
    requires i < |c| && j < |c[i].queue|
    requires a < |RemoveAt(c, i, j)| && b < |RemoveAt(c, i, j)[a].queue|
    ensures RemoveAt(c, i, j)[a].queue[b] != c[i].queue[j]
  {
    var q := c[i].queue[..j] + c[i].queue[j + 1..];
    if q != [] {
      assert RemoveAt(c, i, j) == c[i := Level(c[i].price, q)];
      if a == i {
        var b' := if b >= j then b + 1 else b;
        assert q[b] == c[i].queue[b'];
      }
    } else {
      assert RemoveAt(c, i, j) == c[..i] + c[i + 1..];
      var a' := if a < i then a else a + 1;
      assert RemoveAt(c, i, j)[a] == c[a'];
    }
  }

  /** Removing one entry keeps every order that is not the removed one. */
  lemma RemoveAtKeepsOthers(c: seq<Level<Order>>, i: nat, j: nat)
    requires i < |c| && j < |c[i].queue|
    ensures Objects(c) - {c[i].queue[j]} <= Objects(RemoveAt(c, i, j))
  {
    var r := RemoveAt(c, i, j);
    var o := c[i].queue[j];
    var q := c[i].queue[..j] + c[i].queue[j + 1..];
    forall x | x in Objects(c) && x != o ensures x in Objects(r) {
      var a :| 0 <= a < |c| && x in c[a].queue;
      var b :| 0 <= b < |c[a].queue| && c[a].queue[b] == x;
      if |r| == |c| {
        if a == i {
          assert b != j;
          if b < j { assert q[b] == x; } else { assert q[b - 1] == x; }
          assert x in r[i].queue;
        } else {
          assert r[a] == c[a];
        }
      } else {
        assert |q| == 0;
        assert a != i;
        var a' := if a < i then a else a - 1;
        assert r[a'] == c[a];
        assert x in r[a'].queue;
      }
    }
  }

  /** Filling the first order of a side in place changes the view only at
      that order. */
  twostate lemma ViewAfterFrontFill(c: seq<Level<Order>>)
    requires Unique(c)
    requires c != [] && |c[0].queue| > 0
    requires forall x :: x in Objects(c) && x != c[0].queue[0] ==> unchanged(x)
    ensures View(c) == old(View(c))[0 := Level(c[0].price, old(View(c))[0].queue[0 := c[0].queue[0].State()])]
  {
    var v := old(View(c));
    var w := v[0 := Level(c[0].price, v[0].queue[0 := c[0].queue[0].State()])];
    forall i, j | 0 <= i < |c| && 0 <= j < |c[i].queue| ensures w[i].queue[j] == c[i].queue[j].State() {
      if i != 0 || j != 0 {
        assert c[i].queue[j] in c[i].queue;
        assert c[i].queue[j] in Objects(c);
      }
    }
    ViewEq(c, w);
  }

  /** A side none of whose orders changed has the same view. */
  twostate lemma ViewUnchanged(c: seq<Level<Order>>)
    requires forall x :: x in Objects(c) ==> unchanged(x)
    ensures View(c) == old(View(c))
  {
    var v := old(View(c));
    forall i, j | 0 <= i < |c| && 0 <= j < |c[i].queue| ensures v[i].queue[j] == c[i].queue[j].State() {
      assert c[i].queue[j] in c[i].queue;
      assert c[i].queue[j] in Objects(c);
      assert old(c[i].queue[j].State()) == c[i].queue[j].State();
    }
    ViewEq(c, v);
  }

  /** `HasBids` and `HasAsks` (the loop guards and the preconditions of
      `GetBestBidPrice` and `GetBestAskPrice`) hold exactly when some order
      rests on that side of a book whose sides keep the invariant. */
  lemma HasOrders(b: OrderBook, key: string)
    requires SideOk(Buy, key, View(b.bids)) && SideOk(Sell, key, View(b.asks))
    ensures b.HasBids() <==> Objects(b.bids) != {}
    ensures b.HasAsks() <==> Objects(b.asks) != {}
  {
    SideOkRanked(Buy, key, b.bids);
    SideOkRanked(Sell, key, b.asks);
    if b.bids != [] {
      assert b.bids[0].queue[0] in b.bids[0].queue;
      assert b.bids[0].queue[0] in Objects(b.bids);
    }
    if b.asks != [] {
      assert b.asks[0].queue[0] in b.asks[0].queue;
      assert b.asks[0].queue[0] in Objects(b.asks);
    }
  }

  /** On a side that keeps the invariant, the list the dictionary holds at
      the best price is the first level's queue, and it is not empty. */
  lemma BestLevel(side: OrderSide, key: string, c: seq<Level<Order>>)
    requires SideOk(side, key, View(c)) && c != []
    ensures LevelAt(c, c[0].price) == c[0].queue && |c[0].queue| > 0
  {
    SideOkRanked(side, key, c);
    LevelAtIndex(side, c, 0);
  }

  /** The invariant, read back on the side itself: its prices are sorted
      and no level is empty. */
  lemma SideOkRanked(side: OrderSide, key: string, c: seq<Level<Order>>)
    requires SideOk(side, key, View(c))
    ensures Ranked(side, c)
    ensures forall i :: 0 <= i < |c| ==> |c[i].queue| > 0
  {
    var v := View(c);
    forall i | 0 <= i < |c| ensures |c[i].queue| > 0 {
      assert LevelOk(side, key, v[i]);
    }
  }

  /** Removing a resting order from a side that keeps the invariant (what
      `RemoveOrderFromBook` does) takes out exactly that order, at its place,
      and the side still keeps the invariant. */
  lemma RemoveResting(side: OrderSide, key: string, c: seq<Level<Order>>, i: nat, j: nat)
    requires SideOk(side, key, View(c))
    requires i < |c| && j < |c[i].queue|
    ensures RemoveOrder(c, c[i].queue[j]) == RemoveAt(c, i, j)
    ensures Objects(RemoveAt(c, i, j)) == Objects(c) - {c[i].queue[j]}
    ensures View(RemoveAt(c, i, j)) == RemoveAt(View(c), i, j)
    ensures SideOk(side, key, RemoveAt(View(c), i, j))
  {
    var v := View(c);
    SideOkUnique(side, key, c);
    SideOkRanked(side, key, c);
    assert LevelOk(side, key, v[i]);
    assert LotOk(side, key, c[i].price, v[i].queue[j]);
    RemoveOrderIsRemoveAt(side, c, i, j);
    RemovedOrderGone(c, i, j);
    ViewRemoveAt(c, i, j);
    SideOkRemoveAt(side, key, v, i, j);
  }

  /** Where an order of a side sits: its level and its place in the queue. */
  lemma Position(c: seq<Level<Order>>, o: Order) returns (i: nat, j: nat)
    requires o in Objects(c)
    ensures i < |c| && j < |c[i].queue| && c[i].queue[j] == o
  {
    i :| 0 <= i < |c| && o in c[i].queue;
    j :| 0 <= j < |c[i].queue| && c[i].queue[j] == o;
  }
}
