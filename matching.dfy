/** The matching rule of `MatchBuyOrder` and `MatchSellOrder`
    (src/Domain/Services/MatchingEngine.cs), stated on values.

    `Sweep` is what one call of either loop does to the opposing side and to
    the incoming order (the taker): while the taker has quantity open, the
    opposing side is not empty and the best opposing price crosses, fill the
    first order of the best level by the smaller of the two open quantities
    at that level's price, and remove that order once it is filled.  The
    engine's methods are proved to compute exactly this; the lemmas below
    say what it means. */
module Matching {
  import opened Basics
  import opened Orders
  import opened OrderBooks
  import opened BookViews
  import opened Trades

  /** One round of the loop: the resting order's state after its fill, the
      price of its level and the matched quantity. */
  datatype Execution = Execution(maker: OrderState, price: int, quantity: int)

  datatype SweepResult = SweepResult(executions: seq<Execution>, levels: seq<Level<OrderState>>, taker: OrderState)

  /** A resting order in priority order, with the price of its level. */
  datatype Quote = Quote(price: int, lot: OrderState)

  /** The price test of the loop: a market order takes any price, a limit
      buy needs a price at or above the best ask, a limit sell a price at or
      below the best bid. */
  predicate Crosses(side: OrderSide, taker: Order, best: int)
  {
    taker.orderType == Market || (if side == Buy then taker.price >= best else taker.price <= best)
  }

  predicate NonEmptyLevels(v: seq<Level<OrderState>>)
  {
    forall i :: 0 <= i < |v| ==> |v[i].queue| > 0
  }

  /** Every resting order of a side, best level first, and first come first
      within a level: the order in which the loop reaches them. */
  function Flatten(v: seq<Level<OrderState>>): (f: seq<Quote>)
  {
    if v == [] then [] else Quotes(v[0]) + Flatten(v[1..])
  }

  /** The orders of one level, each with the level's price. */
  function Quotes(l: Level<OrderState>): (f: seq<Quote>)
    ensures |f| == |l.queue|
    ensures forall j :: 0 <= j < |l.queue| ==> f[j] == Quote(l.price, l.queue[j])
  {
    seq(|l.queue|, j requires 0 <= j < |l.queue| => Quote(l.price, l.queue[j]))
  }

  /** The open quantity of a run of resting orders. */
  function Volume(f: seq<Quote>): int
  {
    if f == [] then 0 else f[0].lot.Remaining() + Volume(f[1..])
  }

  /** The total matched quantity of a run of executions. */
  function Total(es: seq<Execution>): int
  {
    if es == [] then 0 else es[0].quantity + Total(es[1..])
  }

  /** The side after its best order has been filled to state `x`: that
      order is removed, and its level too if it was the last, once it is
      filled; otherwise it stays at the front with its new state. */
  function Settle(v: seq<Level<OrderState>>, x: OrderState): seq<Level<OrderState>>
    requires v != [] && |v[0].queue| > 0
  {
    if x.status == Filled then RemoveAt(v, 0, 0)
    else v[0 := Level(v[0].price, v[0].queue[0 := x])]
  }

  lemma SettleFlatten(v: seq<Level<OrderState>>, x: OrderState)
    requires v != [] && NonEmptyLevels(v)
    ensures NonEmptyLevels(Settle(v, x))
    ensures Flatten(v)[0] == Quote(v[0].price, v[0].queue[0])
    ensures Flatten(Settle(v, x)) ==
      (if x.status == Filled then Flatten(v)[1..] else [Quote(v[0].price, x)] + Flatten(v)[1..])
  {
    assert Flatten(v) == Quotes(v[0]) + Flatten(v[1..]);
    if x.status == Filled && |v[0].queue| == 1 {
      assert Settle(v, x) == v[1..];
    } else if x.status == Filled {
      SettleDropsOrder(v, x);
    } else {
      SettleUpdates(v, x);
    }
  }

  /** Replacing the best level changes only its part of the flattening. */
  lemma FlattenReplaceFront(v: seq<Level<OrderState>>, l: Level<OrderState>)
    requires v != []
    ensures Flatten(v) == Quotes(v[0]) + Flatten(v[1..])
    ensures Flatten(v[0 := l]) == Quotes(l) + Flatten(v[1..])
  {
    assert v[0 := l][1..] == v[1..];
  }

  /** A level that loses its first order loses its first quote. */
  lemma QuotesDropFront(l: Level<OrderState>)
    requires |l.queue| > 0
    ensures Quotes(Level(l.price, l.queue[1..])) == Quotes(l)[1..]
  {
  }

  /** A level whose first order changes state changes its first quote. */
  lemma QuotesUpdateFront(l: Level<OrderState>, x: OrderState)
    requires |l.queue| > 0
    ensures Quotes(Level(l.price, l.queue[0 := x])) == [Quote(l.price, x)] + Quotes(l)[1..]
  {
  }

  /** Two runs that share a tail `rest` behind fronts `a` and `a2`. */
  lemma SharedTail<T>(f: seq<T>, g: seq<T>, a: seq<T>, a2: seq<T>, rest: seq<T>)
    requires a != [] && f == a + rest && g == a2 + rest
    ensures f[1..] == a[1..] + rest
    ensures a2 == a[1..] ==> g == f[1..]
    ensures forall y :: a2 == [y] + a[1..] ==> g == [y] + f[1..]
  {
    assert f[1..] == a[1..] + rest;
  }

  /** Settling a filled order that shares its level: the level loses its
      first order. */
  lemma SettleDropsOrder(v: seq<Level<OrderState>>, x: OrderState)
    requires v != [] && NonEmptyLevels(v) && x.status == Filled && |v[0].queue| > 1
    ensures Flatten(Settle(v, x)) == Flatten(v)[1..]
  {
    var l := v[0];
    var l' := Level(l.price, l.queue[1..]);
    assert l.queue[..0] + l.queue[1..] == l.queue[1..];
    assert Settle(v, x) == v[0 := l'];
    FlattenReplaceFront(v, l');
    QuotesDropFront(l);
    SharedTail(Flatten(v), Flatten(v[0 := l']), Quotes(l), Quotes(l'), Flatten(v[1..]));
  }

  /** Settling an order that is not filled: it stays at the front with its
      new state. */
  lemma SettleUpdates(v: seq<Level<OrderState>>, x: OrderState)
    requires v != [] && NonEmptyLevels(v) && x.status != Filled
    ensures Flatten(Settle(v, x)) == [Quote(v[0].price, x)] + Flatten(v)[1..]
  {
    var l := v[0];
    var l' := Level(l.price, l.queue[0 := x]);
    assert Settle(v, x) == v[0 := l'];
    FlattenReplaceFront(v, l');
    QuotesUpdateFront(l, x);
    SharedTail(Flatten(v), Flatten(v[0 := l']), Quotes(l), Quotes(l'), Flatten(v[1..]));
  }

  /** The loop of `MatchBuyOrder` (`side == Buy`, sweeping the asks) and of
      `MatchSellOrder` (`side == Sell`, sweeping the bids). */
  function Sweep(side: OrderSide, v: seq<Level<OrderState>>, t: OrderState): (r: SweepResult)
    requires NonEmptyLevels(v)
    decreases |Flatten(v)|, t.Remaining()
  {
    if t.Remaining() <= 0 || v == [] || !Crosses(side, t.order, v[0].price) then SweepResult([], v, t)
    else
      var m := v[0].queue[0];
      var q := Min(t.Remaining(), m.Remaining());
      var m' := AfterFill(m, q);
      SettleFlatten(v, m');
      var r := Sweep(side, Settle(v, m'), AfterFill(t, q));
      SweepResult([Execution(m', v[0].price, q)] + r.executions, r.levels, r.taker)
  }

  /** What `Process` does with the taker after the loop: it rests when some
      quantity is open and it is neither canceled nor filled. */
  predicate Rests(t: OrderState)
  {
    t.order.quantity > t.filled && t.status != Canceled && t.status != Filled
  }

  /** A side that keeps the book invariant has no empty level. */
  lemma SideOkLevels(side: OrderSide, key: string, v: seq<Level<OrderState>>)
    requires SideOk(side, key, v)
    ensures NonEmptyLevels(v)
  {
    forall i | 0 <= i < |v| ensures |v[i].queue| > 0 {
      assert LevelOk(side, key, v[i]);
    }
  }

  /** The `Trade.Create` call of one round. */
  function TradeFor(side: OrderSide, taker: Order, e: Execution, tradeId: TradeId, now: Time): Trade
  {
    if side == Buy then Trade.Create(tradeId, taker.orderId, e.maker.order.orderId, taker.instrumentId, e.price, e.quantity, now)
    else Trade.Create(tradeId, e.maker.order.orderId, taker.orderId, taker.instrumentId, e.price, e.quantity, now)
  }

  /** The trades of a run of executions, with consecutive trade ids. */
  function TradesFor(side: OrderSide, taker: Order, es: seq<Execution>, tradeIdBase: nat, now: Time): (ts: seq<Trade>)
    ensures |ts| == |es|
  {
    seq(|es|, k requires 0 <= k < |es| => TradeFor(side, taker, es[k], tradeIdBase + k, now))
  }

  /** One more round adds one more trade, with the next trade id. */
  lemma TradesForSnoc(side: OrderSide, taker: Order, es: seq<Execution>, e: Execution, tradeIdBase: nat, now: Time)
    ensures TradesFor(side, taker, es + [e], tradeIdBase, now) ==
            TradesFor(side, taker, es, tradeIdBase, now) + [TradeFor(side, taker, e, tradeIdBase + |es|, now)]
  {
    var es' := es + [e];
    assert forall k :: 0 <= k < |es| ==> es'[k] == es[k];
  }

  // ------------------------------------------------------------------
  // What a sweep does
  // ------------------------------------------------------------------

  /** One round on a side that keeps the book invariant matches a positive
      quantity no larger than either open quantity, and the side still keeps
      the invariant afterwards. */
  lemma StepKeepsSideOk(side: OrderSide, key: string, v: seq<Level<OrderState>>, t: OrderState, q: int)
    requires SideOk(Opposite(side), key, v) && v != []
    requires t.Remaining() > 0 && q == Min(t.Remaining(), v[0].queue[0].Remaining())
    ensures 0 < q <= v[0].queue[0].Remaining() && q <= t.Remaining()
    ensures v[0].queue[0].order.side == Opposite(side)
    ensures AfterFill(v[0].queue[0], q).status == Filled <==> q == v[0].queue[0].Remaining()
    ensures SideOk(Opposite(side), key, Settle(v, AfterFill(v[0].queue[0], q)))
  {
    var m := v[0].queue[0];
    assert LevelOk(Opposite(side), key, v[0]);
    assert LotOk(Opposite(side), key, v[0].price, m);
    FillWithinRemaining(m, q);
    var m' := AfterFill(m, q);
    if m'.status == Filled {
      SideOkRemoveAt(Opposite(side), key, v, 0, 0);
    } else {
      SideOkUpdateFront(Opposite(side), key, v, m');
    }
  }

  /** One round of the sweep, unfolded: a taker with quantity open facing
      a crossing best level fills that level's first order and sweeps on. */
  lemma SweepStep(side: OrderSide, v: seq<Level<OrderState>>, t: OrderState, q: int)
    requires NonEmptyLevels(v) && v != []
    requires t.Remaining() > 0 && Crosses(side, t.order, v[0].price)
    requires q == Min(t.Remaining(), v[0].queue[0].Remaining())
    ensures NonEmptyLevels(Settle(v, AfterFill(v[0].queue[0], q)))
    ensures Sweep(side, v, t).executions ==
      [Execution(AfterFill(v[0].queue[0], q), v[0].price, q)] +
      Sweep(side, Settle(v, AfterFill(v[0].queue[0], q)), AfterFill(t, q)).executions
    ensures Sweep(side, v, t).levels == Sweep(side, Settle(v, AfterFill(v[0].queue[0], q)), AfterFill(t, q)).levels
    ensures Sweep(side, v, t).taker == Sweep(side, Settle(v, AfterFill(v[0].queue[0], q)), AfterFill(t, q)).taker
  {
    SettleFlatten(v, AfterFill(v[0].queue[0], q));
  }

  /** The loop invariant of the engine's matching loops: the sweep from
      the starting side and taker is `done` followed by the sweep from the
      current side and taker, which reaches the same side and taker. */
  ghost predicate Resumes(side: OrderSide, v0: seq<Level<OrderState>>, t0: OrderState, done: seq<Execution>,
                          v: seq<Level<OrderState>>, t: OrderState)
    requires NonEmptyLevels(v0) && NonEmptyLevels(v)
  {
    var whole := Sweep(side, v0, t0);
    var rest := Sweep(side, v, t);
    whole.executions == done + rest.executions && whole.levels == rest.levels && whole.taker == rest.taker
  }

  /** Every sweep resumes itself with nothing done. */
  lemma ResumesStart(side: OrderSide, v: seq<Level<OrderState>>, t: OrderState)
    requires NonEmptyLevels(v)
    ensures Resumes(side, v, t, [], v, t)
  {
    assert [] + Sweep(side, v, t).executions == Sweep(side, v, t).executions;
  }

  /** One fill of the best maker keeps the loop invariant, with its
      execution appended to what is done. */
  lemma SweepResumes(side: OrderSide, v0: seq<Level<OrderState>>, t0: OrderState, done: seq<Execution>,
                     v: seq<Level<OrderState>>, t: OrderState, q: int)
    requires NonEmptyLevels(v0) && NonEmptyLevels(v) && v != []
    requires t.Remaining() > 0 && Crosses(side, t.order, v[0].price)
    requires q == Min(t.Remaining(), v[0].queue[0].Remaining())
    requires Resumes(side, v0, t0, done, v, t)
    ensures NonEmptyLevels(Settle(v, AfterFill(v[0].queue[0], q)))
    ensures Resumes(side, v0, t0, done + [Execution(AfterFill(v[0].queue[0], q), v[0].price, q)],
                    Settle(v, AfterFill(v[0].queue[0], q)), AfterFill(t, q))
  {
    SweepStep(side, v, t, q);
    var e := Execution(AfterFill(v[0].queue[0], q), v[0].price, q);
    var rest := Sweep(side, Settle(v, AfterFill(v[0].queue[0], q)), AfterFill(t, q)).executions;
    assert done + ([e] + rest) == (done + [e]) + rest;
  }

  /** When the loop stops, the sweep is exactly what was done. */
  lemma ResumesStop(side: OrderSide, v0: seq<Level<OrderState>>, t0: OrderState, done: seq<Execution>,
                    v: seq<Level<OrderState>>, t: OrderState)
    requires NonEmptyLevels(v0) && NonEmptyLevels(v)
    requires t.Remaining() <= 0 || v == [] || !Crosses(side, t.order, v[0].price)
    requires Resumes(side, v0, t0, done, v, t)
    ensures Sweep(side, v0, t0) == SweepResult(done, v, t)
  {
    SweepStop(side, v, t);
    assert done + [] == done;
  }

  /** Where a sweep stops at once: the taker is done, the side is empty, or
      the best price does not cross. */
  lemma SweepStop(side: OrderSide, v: seq<Level<OrderState>>, t: OrderState)
    requires NonEmptyLevels(v)
    requires t.Remaining() <= 0 || v == [] || !Crosses(side, t.order, v[0].price)
    ensures Sweep(side, v, t) == SweepResult([], v, t)
  {
  }

  /** The book invariant: a sweep leaves the opposing side sorted, without
      empty levels, with only open orders of the right side, price and
      instrument, each once. */
  lemma {:induction false} SweepKeepsSideOk(side: OrderSide, key: string, v: seq<Level<OrderState>>, t: OrderState)
    requires SideOk(Opposite(side), key, v)
    ensures SideOk(Opposite(side), key, Sweep(side, v, t).levels)
    decreases |Flatten(v)|, t.Remaining()
  {
    if t.Remaining() <= 0 || v == [] || !Crosses(side, t.order, v[0].price) {
    } else {
      var m := v[0].queue[0];
      var q := Min(t.Remaining(), m.Remaining());
      var m' := AfterFill(m, q);
      StepKeepsSideOk(side, key, v, t, q);
      SettleFlatten(v, m');
      FillAccounting(t, q);
      SweepKeepsSideOk(side, key, Settle(v, m'), AfterFill(t, q));
    }
  }

  /** Conservation between a taker `t`, the side `v` it sweeps and the
      result `r`: every round matches a positive quantity; the taker is
      filled by exactly the total matched and never beyond what it had open;
      the side loses exactly that much open quantity; and the taker's status
      is Filled exactly when nothing of it remains open. */
  predicate Conserved(v: seq<Level<OrderState>>, t: OrderState, r: SweepResult)
  {
    && r.taker.order == t.order
    && r.taker.filled == t.filled + Total(r.executions)
    && r.taker.filled >= t.filled
    && (forall i :: 0 <= i < |r.executions| ==> r.executions[i].quantity > 0)
    && Volume(Flatten(v)) == Volume(Flatten(r.levels)) + Total(r.executions)
    && (r.executions == [] ==> r.taker == t)
    && (r.executions != [] ==>
          && Total(r.executions) <= t.Remaining()
          && (r.taker.status == Filled <==> r.taker.Remaining() == 0)
          && (r.taker.status == PartiallyFilled <==> r.taker.Remaining() > 0))
  }

  lemma {:induction false} SweepConserves(side: OrderSide, key: string, v: seq<Level<OrderState>>, t: OrderState)
    requires SideOk(Opposite(side), key, v)
    ensures Conserved(v, t, Sweep(side, v, t))
    decreases |Flatten(v)|, t.Remaining()
  {
    var r := Sweep(side, v, t);
    if t.Remaining() <= 0 || v == [] || !Crosses(side, t.order, v[0].price) {
    } else {
      var m := v[0].queue[0];
      var q := Min(t.Remaining(), m.Remaining());
      var m' := AfterFill(m, q);
      var t' := AfterFill(t, q);
      StepKeepsSideOk(side, key, v, t, q);
      SettleFlatten(v, m');
      FillAccounting(t, q);
      FillAccounting(m, q);
      var v' := Settle(v, m');
      SweepConserves(side, key, v', t');
      var r' := Sweep(side, v', t');
      assert r.executions == [Execution(m', v[0].price, q)] + r'.executions;
      assert r.executions[1..] == r'.executions;
      var f := Flatten(v);
      assert Volume(f) == m.Remaining() + Volume(f[1..]);
      if m'.status != Filled {
        assert ([Quote(v[0].price, m')] + f[1..])[1..] == f[1..];
      }
      forall i | 0 <= i < |r.executions| ensures r.executions[i].quantity > 0 {
        if i > 0 { assert r.executions[i] == r'.executions[i - 1]; }
      }
    }
  }

  /** Where a sweep of `t` ends: the taker is filled, the side is empty, or
      a limit taker's price no longer crosses the best price left; every
      round traded at a crossing price; and a market order never stops on
      price. */
  predicate StopsWhere(side: OrderSide, t: OrderState, r: SweepResult)
  {
    && (r.taker.Remaining() <= 0 || r.levels == [] || !Crosses(side, t.order, r.levels[0].price))
    && (forall i :: 0 <= i < |r.executions| ==> Crosses(side, t.order, r.executions[i].price))
    && (t.order.orderType == Market ==> r.taker.Remaining() <= 0 || r.levels == [])
  }

  lemma {:induction false} SweepStops(side: OrderSide, v: seq<Level<OrderState>>, t: OrderState)
    requires NonEmptyLevels(v)
    ensures StopsWhere(side, t, Sweep(side, v, t))
    decreases |Flatten(v)|, t.Remaining()
  {
    if t.Remaining() <= 0 || v == [] || !Crosses(side, t.order, v[0].price) {
    } else {
      var m := v[0].queue[0];
      var q := Min(t.Remaining(), m.Remaining());
      var m' := AfterFill(m, q);
      SettleFlatten(v, m');
      FillAccounting(t, q);
      var r' := Sweep(side, Settle(v, m'), AfterFill(t, q));
      SweepStops(side, Settle(v, m'), AfterFill(t, q));
      var es := Sweep(side, v, t).executions;
      assert es == [Execution(m', v[0].price, q)] + r'.executions;
      forall i | 0 <= i < |es| ensures Crosses(side, t.order, es[i].price) {
        if i > 0 { assert es[i] == r'.executions[i - 1]; }
      }
    }
  }

  /** A market order is left with open quantity (and so goes on to rest on
      its own side, at its own price) only when it has emptied the opposite
      side of the book. */
  lemma MarketRemainderOnlyOnEmptySide(side: OrderSide, v: seq<Level<OrderState>>, t: OrderState)
    requires NonEmptyLevels(v) && t.order.orderType == Market
    ensures Rests(Sweep(side, v, t).taker) ==> Sweep(side, v, t).levels == []
  {
    SweepStops(side, v, t);
  }

  /** Price-time priority: the sweep `r` of `t` over a side whose orders
      in priority order are `f` fills those orders in that order (best price
      first, first come first within a price), each by the smaller of the
      taker's and its own open quantity, at the price of its level.  Every
      filled order but the last is filled completely and removed; the side
      left behind is the untouched rest, preceded by the last filled order if
      that one was only partly filled. */
  predicate InPriorityOrder(f: seq<Quote>, t: OrderState, r: SweepResult)
  {
    var es := r.executions;
    && FillsInOrder(f, t, es)
    && (forall i :: 0 <= i < |es| - 1 ==> es[i].maker.status == Filled)
    && Flatten(r.levels) ==
         (if |es| > 0 && es[|es| - 1].maker.status != Filled
          then [Quote(f[|es| - 1].price, es[|es| - 1].maker)] + f[|es|..]
          else f[|es|..])
  }

  /** The `i`-th execution fills the `i`-th order of `f`. */
  predicate FillsInOrder(f: seq<Quote>, t: OrderState, es: seq<Execution>)
  {
    && |es| <= |f|
    && forall i :: 0 <= i < |es| ==>
         && es[i].price == f[i].price
         && es[i].quantity == Min(t.Remaining() - Total(es[..i]), f[i].lot.Remaining())
         && es[i].maker == AfterFill(f[i].lot, es[i].quantity)
  }

  lemma FillsInOrderCons(f: seq<Quote>, t: OrderState, e: Execution, es': seq<Execution>)
    requires |f| > 0
    requires e.price == f[0].price && e.quantity == Min(t.Remaining(), f[0].lot.Remaining())
    requires e.maker == AfterFill(f[0].lot, e.quantity)
    requires FillsInOrder(f[1..], AfterFill(t, e.quantity), es')
    ensures FillsInOrder(f, t, [e] + es')
  {
    var es := [e] + es';
    forall i | 0 <= i < |es|
      ensures es[i].price == f[i].price
      ensures es[i].quantity == Min(t.Remaining() - Total(es[..i]), f[i].lot.Remaining())
      ensures es[i].maker == AfterFill(f[i].lot, es[i].quantity)
    {
      if i == 0 {
        assert es[..0] == [];
      } else {
        assert es[i] == es'[i - 1] && f[i] == f[1..][i - 1];
        assert es[..i][1..] == es'[..i - 1];
      }
    }
  }

  /** A round that fills the first order completely, followed by a sweep in
      priority order over the rest, is a sweep in priority order. */
  lemma PriorityAfterFullFill(f: seq<Quote>, t: OrderState, e: Execution, r': SweepResult)
    requires |f| > 0
    requires e.price == f[0].price && e.quantity == Min(t.Remaining(), f[0].lot.Remaining())
    requires e.maker == AfterFill(f[0].lot, e.quantity) && e.maker.status == Filled
    requires InPriorityOrder(f[1..], AfterFill(t, e.quantity), r')
    ensures InPriorityOrder(f, t, SweepResult([e] + r'.executions, r'.levels, r'.taker))
  {
    var es' := r'.executions;
    var es := [e] + es';
    var f' := f[1..];
    FillsInOrderCons(f, t, e, es');
    forall i | 0 <= i < |es| - 1 ensures es[i].maker.status == Filled {
      if i > 0 { assert es[i] == es'[i - 1]; }
    }
    assert f[|es|..] == f'[|es'|..];
    if |es'| > 0 {
      assert es[|es| - 1] == es'[|es'| - 1] && f[|es| - 1] == f'[|es'| - 1];
    }
  }

  lemma {:induction false} SweepFollowsPriority(side: OrderSide, v: seq<Level<OrderState>>, t: OrderState)
    requires NonEmptyLevels(v)
    ensures InPriorityOrder(Flatten(v), t, Sweep(side, v, t))
    decreases |Flatten(v)|, t.Remaining()
  {
    if t.Remaining() <= 0 || v == [] || !Crosses(side, t.order, v[0].price) {
    } else {
      var m := v[0].queue[0];
      var q := Min(t.Remaining(), m.Remaining());
      var m' := AfterFill(m, q);
      var t' := AfterFill(t, q);
      var v' := Settle(v, m');
      var e := Execution(m', v[0].price, q);
      SettleFlatten(v, m');
      FillAccounting(t, q);
      FillAccounting(m, q);
      var r' := Sweep(side, v', t');
      assert Sweep(side, v, t) == SweepResult([e] + r'.executions, r'.levels, r'.taker);
      if m'.status == Filled {
        SweepFollowsPriority(side, v', t');
        PriorityAfterFullFill(Flatten(v), t, e, r');
      } else {
        assert t'.Remaining() == 0;
        assert r' == SweepResult([], v', t');
        assert ([e] + [])[..0] == [];
      }
    }
  }

  /** The lots of a sorted side come in priority order: prices never
      improve along `Flatten`, and each entry is an order of the level whose
      price it carries. */
  lemma {:induction false} FlattenOrdered(side: OrderSide, v: seq<Level<OrderState>>)
    requires Ranked(side, v)
    ensures forall a, b :: 0 <= a < b < |Flatten(v)| ==>
      Flatten(v)[a].price == Flatten(v)[b].price || Better(side, Flatten(v)[a].price, Flatten(v)[b].price)
    ensures forall a :: 0 <= a < |Flatten(v)| ==>
      exists i :: 0 <= i < |v| && v[i].price == Flatten(v)[a].price && Flatten(v)[a].lot in v[i].queue
  {
    if v != [] {
      FlattenOrdered(side, v[1..]);
      var f := Flatten(v);
      var g := Flatten(v[1..]);
      var h := |v[0].queue|;
      assert forall a :: h <= a < |f| ==> f[a] == g[a - h];
      forall a | 0 <= a < |f| ensures exists i :: 0 <= i < |v| && v[i].price == f[a].price && f[a].lot in v[i].queue {
        if a >= h {
          var i :| 0 <= i < |v[1..]| && v[1..][i].price == g[a - h].price && g[a - h].lot in v[1..][i].queue;
          assert v[1..][i] == v[i + 1];
          assert f[a] == g[a - h];
          assert v[i + 1].price == f[a].price && f[a].lot in v[i + 1].queue;
        } else {
          assert f[a].lot == v[0].queue[a];
          assert v[0].price == f[a].price && f[a].lot in v[0].queue;
        }
      }

      forall a, b | 0 <= a < b < |f| ensures f[a].price == f[b].price || Better(side, f[a].price, f[b].price) {
        if a < h && b >= h {
          var i :| 0 <= i < |v[1..]| && v[1..][i].price == g[b - h].price && g[b - h].lot in v[1..][i].queue;
          assert v[i + 1].price == f[b].price;
        }
      }
    } else {
      assert Flatten(v) == [];
    }
  }

  /** Best price first: along a sweep the execution prices never get better
      for the taker. */
  lemma SweepBestPriceFirst(side: OrderSide, key: string, v: seq<Level<OrderState>>, t: OrderState)
    requires SideOk(Opposite(side), key, v)
    ensures forall a, b :: 0 <= a < b < |Sweep(side, v, t).executions| ==>
      Sweep(side, v, t).executions[a].price == Sweep(side, v, t).executions[b].price ||
      Better(Opposite(side), Sweep(side, v, t).executions[a].price, Sweep(side, v, t).executions[b].price)
  {
    SweepFollowsPriority(side, v, t);
    FlattenOrdered(Opposite(side), v);
  }

  /** Every order a sweep fills is an order of the opposing side. */
  lemma SweepMakersOpposite(side: OrderSide, key: string, v: seq<Level<OrderState>>, t: OrderState)
    requires SideOk(Opposite(side), key, v)
    ensures forall i :: 0 <= i < |Sweep(side, v, t).executions| ==>
      Sweep(side, v, t).executions[i].maker.order.side == Opposite(side)
  {
    var es := Sweep(side, v, t).executions;
    var f := Flatten(v);
    SweepFollowsPriority(side, v, t);
    FlattenOrdered(Opposite(side), v);
    forall i | 0 <= i < |es| ensures es[i].maker.order.side == Opposite(side) {
      var k :| 0 <= k < |v| && v[k].price == f[i].price && f[i].lot in v[k].queue;
      assert LevelOk(Opposite(side), key, v[k]);
    }
  }

  /** Each trade names the buying order as buyer and the selling order as
      seller, is for the matched quantity (positive) at the resting level's
      price, which crosses, carries the taker's instrument and the given
      time, and trade ids are consecutive. */
  predicate TradesFaithful(side: OrderSide, t: Order, es: seq<Execution>, ts: seq<Trade>, tradeIdBase: nat, now: Time)
  {
    |ts| == |es| &&
    forall k :: 0 <= k < |ts| ==> TradeFaithful(side, t, es[k], ts[k], tradeIdBase + k, now)
  }

  /** One trade of `TradesFaithful`. */
  predicate TradeFaithful(side: OrderSide, t: Order, e: Execution, tr: Trade, tradeId: int, now: Time)
  {
    && tr.tradeId == tradeId
    && tr.quantity == e.quantity > 0
    && tr.price == e.price && Crosses(side, t, e.price)
    && tr.instrumentId == t.instrumentId && tr.executedAt == now
    && ((tr.buyOrderId == t.orderId && tr.sellOrderId == e.maker.order.orderId &&
         t.side == Buy && e.maker.order.side == Sell) ||
        (tr.buyOrderId == e.maker.order.orderId && tr.sellOrderId == t.orderId &&
         e.maker.order.side == Buy && t.side == Sell))
  }

  /** The trade of one round names the buyer and the seller the right way
      round and copies the round's quantity and price. */
  lemma TradeForFaithful(side: OrderSide, t: Order, e: Execution, tradeId: TradeId, now: Time)
    requires t.side == side && e.maker.order.side == Opposite(side)
    ensures TradeFor(side, t, e, tradeId, now).tradeId == tradeId
    ensures TradeFor(side, t, e, tradeId, now).quantity == e.quantity
    ensures TradeFor(side, t, e, tradeId, now).price == e.price
    ensures TradeFor(side, t, e, tradeId, now).instrumentId == t.instrumentId
    ensures TradeFor(side, t, e, tradeId, now).executedAt == now
    ensures side == Buy ==> TradeFor(side, t, e, tradeId, now).buyOrderId == t.orderId &&
                            TradeFor(side, t, e, tradeId, now).sellOrderId == e.maker.order.orderId
    ensures side == Sell ==> TradeFor(side, t, e, tradeId, now).buyOrderId == e.maker.order.orderId &&
                             TradeFor(side, t, e, tradeId, now).sellOrderId == t.orderId
  {
  }

  lemma SweepTrades(side: OrderSide, key: string, v: seq<Level<OrderState>>, t: OrderState,
                    tradeIdBase: nat, now: Time)
    requires SideOk(Opposite(side), key, v) && t.order.side == side
    ensures TradesFaithful(side, t.order, Sweep(side, v, t).executions,
                           TradesFor(side, t.order, Sweep(side, v, t).executions, tradeIdBase, now), tradeIdBase, now)
  {
    var es := Sweep(side, v, t).executions;
    SweepConserves(side, key, v, t);
    SweepStops(side, v, t);
    SweepMakersOpposite(side, key, v, t);
    TradesForFaithful(side, t.order, es, tradeIdBase, now);
  }

  /** The trades of executions that each match a positive quantity at a
      crossing price against an order of the opposite side are faithful. */
  lemma TradesForFaithful(side: OrderSide, t: Order, es: seq<Execution>, tradeIdBase: nat, now: Time)
    requires t.side == side
    requires forall i :: 0 <= i < |es| ==> es[i].quantity > 0 && Crosses(side, t, es[i].price)
    requires forall i :: 0 <= i < |es| ==> es[i].maker.order.side == Opposite(side)
    ensures TradesFaithful(side, t, es, TradesFor(side, t, es, tradeIdBase, now), tradeIdBase, now)
  {
    var ts := TradesFor(side, t, es, tradeIdBase, now);
    forall k | 0 <= k < |ts| ensures TradeFaithful(side, t, es[k], ts[k], tradeIdBase + k, now) {
      assert ts[k] == TradeFor(side, t, es[k], tradeIdBase + k, now);
      TradeForFaithful(side, t, es[k], tradeIdBase + k, now);
    }
  }
}
